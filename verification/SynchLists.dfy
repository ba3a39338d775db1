// The monitor of threads/synchlist.cc, down to the semaphores of threads/synch.cc.
//
// A step is one interrupt-off region (a semaphore test or post) or one access to
// shared data between two such regions; an adversary picks the thread that steps.
// Reading and writing the list are separate steps, so a missing exclusion would lose
// updates.  Every waiter semaphore is named by the thread that allocated it: a thread
// has at most one, from Condition::Wait until it is deleted at the end of that call.
module SynchLists {
  import opened Collections
  import opened Semaphores

  type Item = int

  // What a thread does once it has the lock; `waited` means that it is coming back
  // from Condition::Wait, so its waiter semaphore is still allocated.
  datatype Goal = ToAppend(item: Item) | ToRemove(waited: bool)

  datatype Point =
    | Idle
    | LockTest(goal: Goal, woken: bool)        // at the loop test of the lock semaphore's P
    | LockAsleep(goal: Goal)                   // in the lock semaphore's queue
    | GotLock(goal: Goal)                      // P returned, lockHolder not yet set
    | AppendRead(item: Item)                   // list->Append: look at the list ...
    | AppendWrite(item: Item, seen: seq<Item>) // ... and link the item in
    | Signal                                   // Condition::Signal: test and pop waitQueue
    | SignalPost(w: Tid)                       // ... and V the waiter that was popped
    | Check(waited: bool)                      // while (list->IsEmpty())
    | WaitEnqueue                              // Condition::Wait: new waiter, onto waitQueue
    | WaitClear                                // ... Lock::Release, lockHolder = NULL
    | WaitUnlock                               // ... Lock::Release, semaphore->V
    | WaitTest(woken: bool)                    // ... waiter->P, loop test
    | WaitAsleep                               // ... waiter->P, asleep
    | RemoveRead                               // list->RemoveFront: look at the list ...
    | RemoveWrite(seen: seq<Item>)             // ... and unlink its first item
    | FreeClear(result: Option<Item>)          // Lock::Release, lockHolder = NULL
    | FreeUnlock(result: Option<Item>)         // Lock::Release, semaphore->V, then return

  datatype State = State(
    lock: Sem,                   // the lock's semaphore
    holder: Option<Tid>,         // the lock's lockHolder
    waitQueue: seq<Tid>,         // listEmpty's queue of waiter semaphores
    waiters: map<Tid, Sem>,      // the allocated waiter semaphores
    list: seq<Item>,
    at: map<Tid, Point>,
    // History, not read by any thread:
    inside: Option<Tid>,         // who has passed the lock's P and not yet done its V
    appended: seq<Item>,         // items in the order they were linked in
    removed: seq<Item>,          // items in the order they were unlinked
    returned: seq<Item>,         // items in the order RemoveFront returned them
    waits: seq<Tid>,             // consumers in the order of their Waits
    popped: seq<Tid>             // consumers in the order of their signals
  )

  datatype Action =
    | CallAppend(t: Tid, item: Item)
    | CallRemove(t: Tid)
    | Step(t: Tid)

  function Init(threads: set<Tid>): State {
    State(Sem(1, []), None, [], map[], [], map t | t in threads :: Idle, None, [], [], [], [], [])
  }

  // The item a thread has promised to append and has not yet linked in.
  function Pending(p: Point): Option<Item> {
    if p.LockTest? || p.LockAsleep? || p.GotLock? then
      if p.goal.ToAppend? then Some(p.goal.item) else None
    else if p.AppendRead? || p.AppendWrite? then Some(p.item)
    else None
  }

  // List::Append asserts that the item is not on the list yet; callers see to it.
  predicate Available(s: State, x: Item) {
    x !in s.list && forall t :: t in s.at ==> Pending(s.at[t]) != Some(x)
  }

  function Next(s: State, a: Action): State {
    if a.t !in s.at then s else
    match a
    case CallAppend(t, x) =>
      if s.at[t].Idle? && Available(s, x) then s.(at := s.at[t := LockTest(ToAppend(x), false)]) else s
    case CallRemove(t) =>
      if s.at[t].Idle? then s.(at := s.at[t := LockTest(ToRemove(false), false)]) else s
    case Step(t) =>
      StepThread(s, t)
  }

  function StepThread(s: State, t: Tid): State
    requires t in s.at
  {
    var p := s.at[t];
    if p.LockTest? || p.GotLock? then StepAcquire(s, t, p)
    else if p.AppendRead? || p.AppendWrite? || p.Signal? || p.SignalPost? then StepAppend(s, t, p)
    else if p.Check? || p.RemoveRead? || p.RemoveWrite? then StepRemove(s, t, p)
    else if p.WaitEnqueue? || p.WaitClear? || p.WaitUnlock? || p.WaitTest? then StepWait(s, t, p)
    else if p.FreeClear? || p.FreeUnlock? then StepRelease(s, t, p)
    else s  // idle or asleep
  }

  // Lock::Acquire, and the end of Condition::Wait
  function StepAcquire(s: State, t: Tid, p: Point): State
    requires p.LockTest? || p.GotLock?
  {
    match p
    case LockTest(g, _) =>
      var (lock', passed) := Test(s.lock, t);
      if passed then s.(lock := lock', inside := Some(t), at := s.at[t := GotLock(g)])
      else s.(lock := lock', at := s.at[t := LockAsleep(g)])
    case GotLock(ToAppend(x)) => s.(holder := Some(t), at := s.at[t := AppendRead(x)])
    case GotLock(ToRemove(w)) => s.(holder := Some(t), waiters := s.waiters - {t}, at := s.at[t := Check(w)])
  }

  // SynchList::Append with the lock held
  function StepAppend(s: State, t: Tid, p: Point): State
    requires p.AppendRead? || p.AppendWrite? || p.Signal? || p.SignalPost?
  {
    match p
    case AppendRead(x) => s.(at := s.at[t := AppendWrite(x, s.list)])
    case AppendWrite(x, seen) =>
      s.(list := seen + [x], appended := s.appended + [x], at := s.at[t := Signal])
    case Signal =>
      if s.waitQueue == [] then s.(at := s.at[t := FreeClear(None)])
      else s.(waitQueue := s.waitQueue[1..], popped := s.popped + [s.waitQueue[0]], at := s.at[t := SignalPost(s.waitQueue[0])])
    case SignalPost(w) => PostWaiter(s.(at := s.at[t := FreeClear(None)]), w)
  }

  // SynchList::RemoveFront with the lock held
  function StepRemove(s: State, t: Tid, p: Point): State
    requires p.Check? || p.RemoveRead? || p.RemoveWrite?
  {
    match p
    case Check(_) => s.(at := s.at[t := if s.list == [] then WaitEnqueue else RemoveRead])
    case RemoveRead => s.(at := s.at[t := RemoveWrite(s.list)])
    case RemoveWrite(seen) =>
      if seen == [] then s  // list->RemoveFront on an empty list: its ASSERT stops the machine
      else s.(list := seen[1..], removed := s.removed + [seen[0]], at := s.at[t := FreeClear(Some(seen[0]))])
  }

  // Condition::Wait up to its second Acquire
  function StepWait(s: State, t: Tid, p: Point): State
    requires p.WaitEnqueue? || p.WaitClear? || p.WaitUnlock? || p.WaitTest?
  {
    match p
    case WaitEnqueue =>
      s.(waiters := s.waiters[t := Sem(0, [])], waitQueue := s.waitQueue + [t], waits := s.waits + [t], at := s.at[t := WaitClear])
    case WaitClear => s.(holder := None, at := s.at[t := WaitUnlock])
    case WaitUnlock => Unlock(s.(at := s.at[t := WaitTest(false)]))
    case WaitTest(_) =>
      if t !in s.waiters then s else
      var (sem', passed) := Test(s.waiters[t], t);
      s.(waiters := s.waiters[t := sem'],
         at := s.at[t := if passed then LockTest(ToRemove(true), false) else WaitAsleep])
  }

  // Lock::Release at the end of Append or RemoveFront, and the return
  function StepRelease(s: State, t: Tid, p: Point): State
    requires p.FreeClear? || p.FreeUnlock?
  {
    match p
    case FreeClear(r) => s.(holder := None, at := s.at[t := FreeUnlock(r)])
    case FreeUnlock(r) =>
      Unlock(s.(at := s.at[t := Idle], returned := if r.Some? then s.returned + [r.value] else s.returned))
  }

  // V on the lock's semaphore: the first sleeper, if any, goes back to the loop test.
  function Unlock(s: State): State {
    var at' := match FirstAsleep(s.lock)
               case Some(q) =>
                 if q in s.at && s.at[q].LockAsleep? then s.at[q := LockTest(s.at[q].goal, true)] else s.at
               case None => s.at;
    s.(lock := Post(s.lock), inside := None, at := at')
  }

  // V on the waiter semaphore of w.
  function PostWaiter(s: State, w: Tid): State {
    if w !in s.waiters then s else
    var at' := match FirstAsleep(s.waiters[w])
               case Some(q) => if q in s.at && s.at[q].WaitAsleep? then s.at[q := WaitTest(true)] else s.at
               case None => s.at;
    s.(waiters := s.waiters[w := Post(s.waiters[w])], at := at')
  }

  function Run(s: State, acts: seq<Action>): State
    decreases |acts|
  {
    if acts == [] then s else Next(Run(s, acts[..|acts| - 1]), acts[|acts| - 1])
  }

  // ---------------------------------------------------------------------
  // Invariants

  // Between the lock's P and its V.
  predicate Inside(p: Point) {
    p.GotLock? || Holding(p) || p.WaitUnlock? || p.FreeUnlock?
  }

  // The part of that in which lockHolder names the thread.
  predicate Holding(p: Point) {
    || p.AppendRead? || p.AppendWrite? || p.Signal? || p.SignalPost? || p.Check?
    || p.WaitEnqueue? || p.WaitClear? || p.RemoveRead? || p.RemoveWrite? || p.FreeClear?
  }

  // How far a thread is in Condition::Wait.
  datatype Stage =
    | NotWaiting
    | Waiting(asleep: bool)  // waiter allocated, not woken
    | Woken                  // taken off the waiter's queue, about to test it again
    | Back                   // past the waiter's P, getting the lock back

  function StageOf(p: Point): Stage {
    if p.LockTest? || p.LockAsleep? || p.GotLock? then
      if p.goal == ToRemove(true) then Back else NotWaiting
    else if p.WaitAsleep? then Waiting(true)
    else if p.WaitTest? && p.woken then Woken
    else if p.WaitTest? || p.WaitClear? || p.WaitUnlock? then Waiting(false)
    else NotWaiting
  }

  // Mutual exclusion, and the lock's own ASSERTs.
  ghost predicate LockInv(s: State) {
    && s.lock.value == (if s.inside.None? then 1 else 0)
    && (s.inside.Some? ==> s.inside.value in s.at)
    && (forall t :: t in s.at ==> (Inside(s.at[t]) <==> s.inside == Some(t)))
    && (forall t :: t in s.at && Holding(s.at[t]) ==> s.holder == Some(t))
    && (s.inside.None? || !Holding(s.at[s.inside.value]) ==> s.holder == None)
  }

  ghost predicate QueueInv(s: State) {
    && NoDup(s.lock.queue)
    && (forall t :: t in s.lock.queue <==> t in s.at && s.at[t].LockAsleep?)
    && (s.lock.queue != [] && s.lock.value > 0 ==> exists t :: t in s.at && s.at[t].LockTest? && s.at[t].woken)
  }

  // The waiter that the thread in the monitor has popped and not yet posted.
  ghost function Posting(s: State): Option<Tid> {
    if s.inside.Some? && s.inside.value in s.at && s.at[s.inside.value].SignalPost?
    then Some(s.at[s.inside.value].w) else None
  }

  ghost predicate WaiterInv(s: State) {
    && NoDup(s.waitQueue)
    && (forall t :: t in s.waiters <==> t in s.at && StageOf(s.at[t]) != NotWaiting)
    && (forall t :: t in s.waitQueue ==> t in s.waiters)
    && (forall t :: t in s.waiters ==> WaiterOk(s.waiters[t], t, StageOf(s.at[t]), t in s.waitQueue || Posting(s) == Some(t)))
    && (Posting(s).Some? ==> Posting(s).value in s.waiters && Posting(s).value !in s.waitQueue)
  }

  // A waiter semaphore gets its one unit when it is posted, and its owner takes it once.
  ghost predicate WaiterOk(sem: Sem, t: Tid, stage: Stage, unposted: bool) {
    && sem.queue == (if stage == Waiting(true) then [t] else [])
    && sem.value == (if unposted || stage == Back then 0 else 1)
    && (unposted ==> stage.Waiting?)
    && (!unposted ==> stage != Waiting(true))
  }

  // What a thread in the monitor has seen of the list is still so.
  ghost predicate ListInv(s: State) {
    && s.removed + s.list == s.appended
    && s.returned + InFlight(s) == s.removed
    && (forall t :: t in s.at ==> Local(s, s.at[t]))
  }

  // The ASSERT of List::Append holds when it is reached.
  ghost predicate PendingInv(s: State) {
    && NoDup(s.list)
    && (forall t :: t in s.at && Pending(s.at[t]).Some? ==> Pending(s.at[t]).value !in s.list)
    && (forall t, u :: t in s.at && u in s.at && t != u && Pending(s.at[t]).Some? ==> Pending(s.at[t]) != Pending(s.at[u]))
  }

  ghost predicate Local(s: State, p: Point) {
    match p
    case AppendWrite(_, seen) => seen == s.list
    case RemoveRead => s.list != []
    case RemoveWrite(seen) => s.list != [] && seen == s.list
    case WaitEnqueue => s.list == []
    case _ => true
  }

  // The item that RemoveFront has unlinked and not yet returned.
  ghost function InFlight(s: State): seq<Item> {
    if s.inside.None? || s.inside.value !in s.at then [] else
    match s.at[s.inside.value]
    case FreeClear(Some(x)) => [x]
    case FreeUnlock(Some(x)) => [x]
    case _ => []
  }

  // Consumers that have been signalled and have not yet looked at the list again.
  ghost function Signalled(s: State): set<Tid> {
    set t | t in s.at && (s.at[t] == Check(true) || (t in s.waiters && t !in s.waitQueue))
  }

  // The thread in the monitor has added an item it has not signalled yet, or is about to take one.
  ghost function InHand(s: State): nat {
    if s.inside.None? || s.inside.value !in s.at then 0 else
    var p := s.at[s.inside.value];
    if p.Signal? || p.RemoveRead? || p.RemoveWrite? then 1 else 0
  }

  ghost predicate WakeInv(s: State) {
    s.waitQueue != [] ==> |s.list| <= |Signalled(s)| + InHand(s)
  }

  ghost predicate Inv(s: State) {
    LockInv(s) && QueueInv(s) && WaiterInv(s) && ListInv(s) && PendingInv(s) && WakeInv(s)
  }

  lemma AcquireKeepsLockInv(s: State, t: Tid)
    requires LockInv(s) && t in s.at
    requires s.at[t].LockTest? || s.at[t].GotLock?
    ensures LockInv(StepAcquire(s, t, s.at[t]))
  {
  }

  lemma AcquireKeepsQueueInv(s: State, t: Tid)
    requires LockInv(s) && QueueInv(s) && t in s.at
    requires s.at[t].LockTest? || s.at[t].GotLock?
    ensures QueueInv(StepAcquire(s, t, s.at[t]))
  {
    if s.lock.queue != [] { HeadOff(s.lock.queue); }
    if t !in s.lock.queue { JoinQueue(s.lock.queue, t); }
  }

  lemma AcquireKeepsListInv(s: State, t: Tid)
    requires LockInv(s) && ListInv(s) && t in s.at
    requires s.at[t].LockTest? || s.at[t].GotLock?
    ensures ListInv(StepAcquire(s, t, s.at[t]))
  {
  }

  lemma AppendKeepsLockInv(s: State, t: Tid)
    requires LockInv(s) && t in s.at
    requires s.at[t].AppendRead? || s.at[t].AppendWrite? || s.at[t].Signal? || s.at[t].SignalPost?
    ensures LockInv(StepAppend(s, t, s.at[t]))
  {
  }

  lemma AppendKeepsQueueInv(s: State, t: Tid)
    requires LockInv(s) && QueueInv(s) && t in s.at
    requires s.at[t].AppendRead? || s.at[t].AppendWrite? || s.at[t].Signal? || s.at[t].SignalPost?
    ensures QueueInv(StepAppend(s, t, s.at[t]))
  {
    if s.lock.queue != [] { HeadOff(s.lock.queue); }
    if t !in s.lock.queue { JoinQueue(s.lock.queue, t); }
  }

  lemma AppendKeepsListInv(s: State, t: Tid)
    requires LockInv(s) && ListInv(s) && t in s.at
    requires s.at[t].AppendRead? || s.at[t].AppendWrite? || s.at[t].Signal? || s.at[t].SignalPost?
    ensures ListInv(StepAppend(s, t, s.at[t]))
  {
  }

  lemma RemoveKeepsLockInv(s: State, t: Tid)
    requires LockInv(s) && t in s.at
    requires s.at[t].Check? || s.at[t].RemoveRead? || s.at[t].RemoveWrite?
    ensures LockInv(StepRemove(s, t, s.at[t]))
  {
  }

  lemma RemoveKeepsQueueInv(s: State, t: Tid)
    requires LockInv(s) && QueueInv(s) && t in s.at
    requires s.at[t].Check? || s.at[t].RemoveRead? || s.at[t].RemoveWrite?
    ensures QueueInv(StepRemove(s, t, s.at[t]))
  {
    if s.lock.queue != [] { HeadOff(s.lock.queue); }
    if t !in s.lock.queue { JoinQueue(s.lock.queue, t); }
  }

  lemma RemoveKeepsListInv(s: State, t: Tid)
    requires LockInv(s) && ListInv(s) && t in s.at
    requires s.at[t].Check? || s.at[t].RemoveRead? || s.at[t].RemoveWrite?
    ensures ListInv(StepRemove(s, t, s.at[t]))
  {
  }

  lemma WaitKeepsLockInv(s: State, t: Tid)
    requires LockInv(s) && t in s.at
    requires s.at[t].WaitEnqueue? || s.at[t].WaitClear? || s.at[t].WaitUnlock? || s.at[t].WaitTest?
    ensures LockInv(StepWait(s, t, s.at[t]))
  {
  }

  lemma WaitKeepsQueueInv(s: State, t: Tid)
    requires LockInv(s) && QueueInv(s) && t in s.at
    requires s.at[t].WaitEnqueue? || s.at[t].WaitClear? || s.at[t].WaitUnlock? || s.at[t].WaitTest?
    ensures QueueInv(StepWait(s, t, s.at[t]))
  {
    if s.lock.queue != [] { HeadOff(s.lock.queue); }
    if t !in s.lock.queue { JoinQueue(s.lock.queue, t); }
  }

  lemma WaitKeepsListInv(s: State, t: Tid)
    requires LockInv(s) && ListInv(s) && t in s.at
    requires s.at[t].WaitEnqueue? || s.at[t].WaitClear? || s.at[t].WaitUnlock? || s.at[t].WaitTest?
    ensures ListInv(StepWait(s, t, s.at[t]))
  {
  }

  lemma ReleaseKeepsLockInv(s: State, t: Tid)
    requires LockInv(s) && t in s.at
    requires s.at[t].FreeClear? || s.at[t].FreeUnlock?
    ensures LockInv(StepRelease(s, t, s.at[t]))
  {
  }

  lemma ReleaseKeepsQueueInv(s: State, t: Tid)
    requires LockInv(s) && QueueInv(s) && t in s.at
    requires s.at[t].FreeClear? || s.at[t].FreeUnlock?
    ensures QueueInv(StepRelease(s, t, s.at[t]))
  {
    if s.lock.queue != [] { HeadOff(s.lock.queue); }
    if t !in s.lock.queue { JoinQueue(s.lock.queue, t); }
  }

  lemma ReleaseKeepsListInv(s: State, t: Tid)
    requires LockInv(s) && ListInv(s) && t in s.at
    requires s.at[t].FreeClear? || s.at[t].FreeUnlock?
    ensures ListInv(StepRelease(s, t, s.at[t]))
  {
  }


  lemma PendingFrame(s: State, s': State)
    requires PendingInv(s)
    requires NoDup(s'.list) && (forall x :: x in s'.list ==> x in s.list)
    requires forall u :: u in s'.at ==> u in s.at && (Pending(s'.at[u]).None? || Pending(s'.at[u]) == Pending(s.at[u]))
    ensures PendingInv(s')
  {
  }

  // A step moves no other thread, except that a post wakes one sleeper.
  ghost predicate OthersStay(s: State, s': State, t: Tid) {
    && s'.at.Keys == s.at.Keys
    && forall u :: u in s.at && u != t ==>
         || s'.at[u] == s.at[u]
         || (s.at[u].LockAsleep? && s'.at[u] == LockTest(s.at[u].goal, true))
         || (s.at[u].WaitAsleep? && s'.at[u] == WaitTest(true) && t in s.at && s.at[t].SignalPost?)
  }

  lemma StepOthers(s: State, t: Tid)
    requires t in s.at
    ensures OthersStay(s, StepThread(s, t), t)
  {
    var p := s.at[t];
    if p.WaitUnlock? {
      UnlockOthers(s.(at := s.at[t := WaitTest(false)]));
    } else if p.FreeUnlock? {
      UnlockOthers(s.(at := s.at[t := Idle], returned := if p.result.Some? then s.returned + [p.result.value] else s.returned));
    } else if p.SignalPost? {
      PostOthers(s.(at := s.at[t := FreeClear(None)]), p.w);
    } else {
      OwnStepOnly(s, t);
    }
  }

  // No other step moves any other thread.
  lemma OwnStepOnly(s: State, t: Tid)
    requires t in s.at && !s.at[t].WaitUnlock? && !s.at[t].FreeUnlock? && !s.at[t].SignalPost?
    ensures var at' := StepThread(s, t).at; t in at' && at' == s.at[t := at'[t]]
  {
  }

  // V on the lock or on a waiter moves at most the one thread it wakes.
  lemma UnlockOthers(s: State)
    ensures Unlock(s).at.Keys == s.at.Keys
    ensures forall u :: u in s.at ==> Unlock(s).at[u] == s.at[u] || (s.at[u].LockAsleep? && Unlock(s).at[u] == LockTest(s.at[u].goal, true))
  {
  }

  lemma PostOthers(s: State, w: Tid)
    ensures PostWaiter(s, w).at.Keys == s.at.Keys
    ensures forall u :: u in s.at ==> PostWaiter(s, w).at[u] == s.at[u] || (s.at[u].WaitAsleep? && PostWaiter(s, w).at[u] == WaitTest(true))
  {
  }

  lemma OthersKeep(s: State, s': State, t: Tid)
    requires OthersStay(s, s', t)
    ensures forall u :: u in s.at && u != t ==> Pending(s'.at[u]) == Pending(s.at[u])
    ensures forall u :: u in s.at && u != t && !s.at[u].WaitAsleep? ==> StageOf(s'.at[u]) == StageOf(s.at[u])
    ensures t in s.at && !s.at[t].SignalPost? ==>
              forall u :: u in s.at && u != t ==> StageOf(s'.at[u]) == StageOf(s.at[u])
  {
  }

  // What a step does to its own thread's promise to append, and to the list.
  ghost predicate OwnPending(s: State, s': State, t: Tid)
    requires t in s.at && t in s'.at
  {
    && (Pending(s'.at[t]).None? || Pending(s'.at[t]) == Pending(s.at[t]))
    && (s'.list == s.list || (s.at[t].RemoveWrite? && s.at[t].seen != [] && s'.list == s.at[t].seen[1..]))
  }

  lemma OwnStep(s: State, t: Tid)
    requires t in s.at && (s.at[t].LockTest? || s.at[t].GotLock? || s.at[t].WaitEnqueue? || s.at[t].WaitClear? || s.at[t].WaitUnlock? || s.at[t].WaitTest?)
    ensures OwnPending(s, StepThread(s, t), t)
  {
  }

  lemma OwnStepInMonitor(s: State, t: Tid)
    requires t in s.at && (s.at[t].AppendRead? || s.at[t].Signal? || s.at[t].SignalPost? || s.at[t].Check? || s.at[t].RemoveRead? || s.at[t].RemoveWrite? || s.at[t].FreeClear? || s.at[t].FreeUnlock?)
    ensures OwnPending(s, StepThread(s, t), t)
  {
  }

  lemma StepKeepsPendingInv(s: State, t: Tid)
    requires ListInv(s) && PendingInv(s) && t in s.at && !s.at[t].AppendWrite?
    ensures PendingInv(StepThread(s, t))
  {
    var s' := StepThread(s, t);
    var p := s.at[t];
    if p.LockTest? || p.GotLock? || p.WaitEnqueue? || p.WaitClear? || p.WaitUnlock? || p.WaitTest? {
      OwnStep(s, t);
    } else if !(p.Idle? || p.LockAsleep? || p.WaitAsleep?) {
      OwnStepInMonitor(s, t);
    }
    StepOthers(s, t);
    OthersKeep(s, s', t);
    assert Local(s, s.at[t]);
    if s.list != [] { HeadOff(s.list); }
    PendingFrame(s, s');
  }

  lemma LinkKeepsPendingInv(s: State, t: Tid)
    requires ListInv(s) && PendingInv(s) && t in s.at && s.at[t].AppendWrite?
    ensures PendingInv(StepThread(s, t))
  {
    assert Local(s, s.at[t]);
    JoinQueue(s.list, s.at[t].item);
  }

  lemma WaiterFrame(s: State, s': State)
    requires WaiterInv(s)
    requires s'.waiters == s.waiters && s'.waitQueue == s.waitQueue && s'.at.Keys == s.at.Keys
    requires forall u :: u in s.at ==> StageOf(s'.at[u]) == StageOf(s.at[u])
    requires Posting(s') == Posting(s)
    ensures WaiterInv(s')
  {
  }

  lemma SignalKeepsWaiterInv(s: State, t: Tid)
    requires LockInv(s) && WaiterInv(s) && t in s.at && s.at[t].Signal? && s.waitQueue != []
    ensures WaiterInv(StepAppend(s, t, s.at[t]))
  {
    HeadOff(s.waitQueue);
  }

  // V on a waiter that nobody has posted yet: its owner, if asleep, goes back to the loop test.
  lemma PostEffect(s: State, t: Tid, w: Tid)
    requires t in s.at && s.at[t] == SignalPost(w) && w in s.waiters && w in s.at && w != t
    requires WaiterOk(s.waiters[w], w, StageOf(s.at[w]), true)
    ensures StepAppend(s, t, s.at[t]) == Posted(s, t, w)
  {
    var sem := s.waiters[w];
    assert sem.value == 0 && Post(sem) == Sem(1, []);
    assert StageOf(s.at[w]) == Waiting(true) <==> s.at[w].WaitAsleep?;
  }

  ghost function Posted(s: State, t: Tid, w: Tid): State
    requires w in s.at
  {
    s.(waiters := s.waiters[w := Sem(1, [])],
       at := if s.at[w].WaitAsleep? then s.at[t := FreeClear(None)][w := WaitTest(true)] else s.at[t := FreeClear(None)])
  }

  lemma PostKeepsWaiterInv(s: State, t: Tid)
    requires LockInv(s) && WaiterInv(s) && t in s.at && s.at[t].SignalPost?
    ensures WaiterInv(StepAppend(s, t, s.at[t]))
  {
    var w := s.at[t].w;
    assert Posting(s) == Some(w);
    assert WaiterOk(s.waiters[w], w, StageOf(s.at[w]), true);
    PostEffect(s, t, w);
    PostedKeepsWaiterInv(s, t, w);
  }

  lemma PostedKeepsWaiterInv(s: State, t: Tid, w: Tid)
    requires WaiterInv(s) && t in s.at && s.at[t] == SignalPost(w) && Posting(s) == Some(w) && s.inside == Some(t)
    ensures WaiterInv(Posted(s, t, w))
  {
    var s' := Posted(s, t, w);
    assert Posting(s') == None;
    forall u | u in s'.waiters
      ensures u in s'.at && WaiterOk(s'.waiters[u], u, StageOf(s'.at[u]), u in s'.waitQueue || Posting(s') == Some(u))
    {
      PostedWaiterOk(s, t, w, u);
    }
  }

  lemma PostedWaiterOk(s: State, t: Tid, w: Tid, u: Tid)
    requires t in s.at && s.at[t] == SignalPost(w) && w in s.at && w in s.waiters && w !in s.waitQueue && w != t
    requires u in s.waiters && u in s.at && u != t && StageOf(s.at[u]) != NotWaiting
    requires WaiterOk(s.waiters[u], u, StageOf(s.at[u]), u in s.waitQueue || u == w)
    ensures var s' := Posted(s, t, w);
            WaiterOk(s'.waiters[u], u, StageOf(s'.at[u]), u in s.waitQueue) && StageOf(s'.at[u]) != NotWaiting
  {
  }

  lemma EnqueueKeepsWaiterInv(s: State, t: Tid)
    requires LockInv(s) && WaiterInv(s) && t in s.at && s.at[t].WaitEnqueue?
    ensures WaiterInv(StepWait(s, t, s.at[t]))
  {
    JoinQueue(s.waitQueue, t);
  }

  lemma TestKeepsWaiterInv(s: State, t: Tid)
    requires LockInv(s) && WaiterInv(s) && t in s.at && s.at[t].WaitTest?
    ensures WaiterInv(StepWait(s, t, s.at[t]))
  {
    var s' := StepWait(s, t, s.at[t]);
    assert t in s.waiters && Posting(s') == Posting(s);
    forall u | u in s'.waiters
      ensures u in s'.at && WaiterOk(s'.waiters[u], u, StageOf(s'.at[u]), u in s'.waitQueue || Posting(s') == Some(u))
    {
      assert WaiterOk(s.waiters[u], u, StageOf(s.at[u]), u in s.waitQueue || Posting(s) == Some(u));
    }
  }

  lemma DeleteKeepsWaiterInv(s: State, t: Tid)
    requires LockInv(s) && WaiterInv(s) && t in s.at && s.at[t].GotLock?
    ensures WaiterInv(StepAcquire(s, t, s.at[t]))
  {
  }

  // The steps that touch no waiter semaphore and do not move the thread within Wait.
  ghost predicate OwnWaiter(s: State, s': State, t: Tid)
    requires t in s.at && t in s'.at
  {
    s'.waiters == s.waiters && s'.waitQueue == s.waitQueue && StageOf(s'.at[t]) == StageOf(s.at[t]) && Posting(s') == Posting(s)
  }

  lemma OwnWaiterStep(s: State, t: Tid)
    requires LockInv(s) && t in s.at
    requires s.at[t].LockTest? || s.at[t].WaitClear? || s.at[t].WaitUnlock? || s.at[t].FreeClear? || s.at[t].FreeUnlock?
    ensures OwnWaiter(s, StepThread(s, t), t)
  {
  }

  lemma OwnWaiterStepInMonitor(s: State, t: Tid)
    requires LockInv(s) && t in s.at
    requires s.at[t].AppendRead? || s.at[t].AppendWrite? || (s.at[t].Signal? && s.waitQueue == [])
          || s.at[t].Check? || s.at[t].RemoveRead? || s.at[t].RemoveWrite?
    ensures OwnWaiter(s, StepThread(s, t), t)
  {
  }

  lemma StepKeepsWaiterInv(s: State, t: Tid)
    requires LockInv(s) && WaiterInv(s) && t in s.at
    ensures WaiterInv(StepThread(s, t))
  {
    var p := s.at[t];
    if p.Signal? && s.waitQueue != [] {
      SignalKeepsWaiterInv(s, t);
    } else if p.SignalPost? {
      PostKeepsWaiterInv(s, t);
    } else if p.WaitEnqueue? {
      EnqueueKeepsWaiterInv(s, t);
    } else if p.WaitTest? {
      TestKeepsWaiterInv(s, t);
    } else if p.GotLock? {
      DeleteKeepsWaiterInv(s, t);
    } else if !(p.Idle? || p.LockAsleep? || p.WaitAsleep?) {
      if p.LockTest? || p.WaitClear? || p.WaitUnlock? || p.FreeClear? || p.FreeUnlock? {
        OwnWaiterStep(s, t);
      } else {
        OwnWaiterStepInMonitor(s, t);
      }
      StepOthers(s, t);
      OthersKeep(s, StepThread(s, t), t);
      WaiterFrame(s, StepThread(s, t));
    }
  }

  lemma Smaller<T>(a: set<T>, b: set<T>)
    requires a <= b
    ensures |a| <= |b|
  {
    if a != b {
      assert b == a + (b - a);
    }
  }

  // A step that leaves waitQueue and the others' waiters alone, keeps its thread among the
  // signalled if it was, and does not add more to the list than it takes in hand.
  lemma WakeFrame(s: State, s': State, t: Tid)
    requires WakeInv(s) && OthersStay(s, s', t) && t in s.at
    requires s'.waitQueue == s.waitQueue && s'.waiters.Keys - {t} == s.waiters.Keys - {t}
    requires t in Signalled(s) ==> t in Signalled(s')
    requires |s'.list| - InHand(s') <= |s.list| - InHand(s)
    ensures WakeInv(s')
  {
    forall u | u in Signalled(s)
      ensures u in Signalled(s')
    {
      if u != t {
        assert u in s.waiters.Keys - {t} <==> u in s'.waiters.Keys - {t};
      }
    }
    Smaller(Signalled(s), Signalled(s'));
  }

  // The rest of those conditions, for a thread at a given place.
  ghost predicate OwnWake(s: State, s': State, t: Tid)
    requires t in s.at
  {
    && s'.waitQueue == s.waitQueue && s'.waiters.Keys - {t} == s.waiters.Keys - {t}
    && (t in Signalled(s) ==> t in Signalled(s'))
    && |s'.list| - InHand(s') <= |s.list| - InHand(s)
  }

  lemma OwnWakeStep(s: State, t: Tid)
    requires LockInv(s) && WaiterInv(s) && t in s.at
    requires s.at[t].LockTest? || s.at[t].GotLock? || s.at[t].FreeClear? || s.at[t].FreeUnlock?
    ensures OwnWake(s, StepThread(s, t), t)
  {
  }

  lemma OwnWakeStepInWait(s: State, t: Tid)
    requires LockInv(s) && WaiterInv(s) && t in s.at
    requires s.at[t].WaitClear? || s.at[t].WaitUnlock? || s.at[t].WaitTest?
    ensures OwnWake(s, StepThread(s, t), t)
  {
  }

  lemma OwnWakeStepInMonitor(s: State, t: Tid)
    requires LockInv(s) && WaiterInv(s) && ListInv(s) && t in s.at
    requires s.at[t].AppendRead? || s.at[t].AppendWrite? || s.at[t].SignalPost? || s.at[t].RemoveRead? || s.at[t].RemoveWrite?
    ensures OwnWake(s, StepThread(s, t), t)
  {
    assert Local(s, s.at[t]);
  }

  lemma SignalKeepsWakeInv(s: State, t: Tid)
    requires LockInv(s) && WaiterInv(s) && WakeInv(s) && t in s.at && s.at[t].Signal? && s.waitQueue != []
    ensures WakeInv(StepThread(s, t))
  {
    var s' := s.(waitQueue := s.waitQueue[1..], popped := s.popped + [s.waitQueue[0]], at := s.at[t := SignalPost(s.waitQueue[0])]);
    assert StepThread(s, t) == s';
    SignalAddsOne(s, s', t);
    assert InHand(s) == 1 && InHand(s') == 0;
  }

  lemma SignalAddsOne(s: State, s': State, t: Tid)
    requires WaiterInv(s) && t in s.at && s.at[t].Signal? && s.waitQueue != []
    requires s' == s.(waitQueue := s.waitQueue[1..], popped := s.popped + [s.waitQueue[0]], at := s.at[t := SignalPost(s.waitQueue[0])])
    ensures |Signalled(s')| == |Signalled(s)| + 1
  {
    var w := s.waitQueue[0];
    assert w in s.waiters && w in s.at && StageOf(s.at[w]) != NotWaiting;
    FirstIsSignalled(s, s', t, w);
    assert Signalled(s') == Signalled(s) + {w} && w !in Signalled(s);
  }

  lemma FirstIsSignalled(s: State, s': State, t: Tid, w: Tid)
    requires NoDup(s.waitQueue) && t in s.at && s.at[t].Signal? && s.waitQueue != [] && w == s.waitQueue[0]
    requires w in s.waiters && w in s.at && StageOf(s.at[w]) != NotWaiting
    requires s' == s.(waitQueue := s.waitQueue[1..], popped := s.popped + [w], at := s.at[t := SignalPost(w)])
    ensures forall u :: u in Signalled(s') <==> u in Signalled(s) || u == w
    ensures w !in Signalled(s)
  {
    HeadOff(s.waitQueue);
  }

  lemma CheckKeepsWakeInv(s: State, t: Tid)
    requires LockInv(s) && WakeInv(s) && t in s.at && s.at[t].Check?
    ensures WakeInv(StepThread(s, t))
  {
    Smaller(Signalled(s) - {t}, Signalled(StepThread(s, t)));
  }

  lemma StepKeepsWakeInv(s: State, t: Tid)
    requires LockInv(s) && WaiterInv(s) && ListInv(s) && WakeInv(s) && t in s.at
    ensures WakeInv(StepThread(s, t))
  {
    var p := s.at[t];
    var s' := StepThread(s, t);
    if p.Idle? || p.LockAsleep? || p.WaitAsleep? {
    } else if p.Signal? {
      if s.waitQueue != [] { SignalKeepsWakeInv(s, t); }
    } else if p.Check? {
      CheckKeepsWakeInv(s, t);
    } else if p.WaitEnqueue? {
      assert Local(s, p);
    } else {
      if p.LockTest? || p.GotLock? || p.FreeClear? || p.FreeUnlock? {
        OwnWakeStep(s, t);
      } else if p.WaitClear? || p.WaitUnlock? || p.WaitTest? {
        OwnWakeStepInWait(s, t);
      } else {
        OwnWakeStepInMonitor(s, t);
      }
      StepOthers(s, t);
      WakeFrame(s, s', t);
    }
  }

  lemma StepKeepsLockQueueListInv(s: State, t: Tid)
    requires LockInv(s) && QueueInv(s) && ListInv(s) && t in s.at
    ensures LockInv(StepThread(s, t)) && QueueInv(StepThread(s, t)) && ListInv(StepThread(s, t))
  {
    var p := s.at[t];
    if p.LockTest? || p.GotLock? {
      AcquireKeepsLockInv(s, t); AcquireKeepsQueueInv(s, t); AcquireKeepsListInv(s, t);
    } else if p.AppendRead? || p.AppendWrite? || p.Signal? || p.SignalPost? {
      AppendKeepsLockInv(s, t); AppendKeepsQueueInv(s, t); AppendKeepsListInv(s, t);
    } else if p.Check? || p.RemoveRead? || p.RemoveWrite? {
      RemoveKeepsLockInv(s, t); RemoveKeepsQueueInv(s, t); RemoveKeepsListInv(s, t);
    } else if p.WaitEnqueue? || p.WaitClear? || p.WaitUnlock? || p.WaitTest? {
      WaitKeepsLockInv(s, t); WaitKeepsQueueInv(s, t); WaitKeepsListInv(s, t);
    } else if p.FreeClear? || p.FreeUnlock? {
      ReleaseKeepsLockInv(s, t); ReleaseKeepsQueueInv(s, t); ReleaseKeepsListInv(s, t);
    }
  }

  lemma CallKeepsLockQueueListInv(s: State, a: Action)
    requires LockInv(s) && QueueInv(s) && ListInv(s) && !a.Step?
    ensures var s' := Next(s, a); LockInv(s') && QueueInv(s') && ListInv(s')
  {
    CallKeepsLock(s, a);
    CallKeepsList(s, a);
  }

  // A call moves one idle thread to the lock and changes nothing else.
  lemma CallEffect(s: State, a: Action)
    requires !a.Step?
    ensures var s' := Next(s, a);
            || s' == s
            || (a.t in s.at && s.at[a.t].Idle? && exists g: Goal :: g != ToRemove(true) && s' == s.(at := s.at[a.t := LockTest(g, false)]))
  {
    if a.CallAppend? {
      assert ToAppend(a.item) != ToRemove(true);
    } else {
      assert ToRemove(false) != ToRemove(true);
    }
  }

  lemma CallKeepsLock(s: State, a: Action)
    requires LockInv(s) && QueueInv(s) && !a.Step?
    ensures var s' := Next(s, a); LockInv(s') && QueueInv(s')
  {
    CallEffect(s, a);
    var s' := Next(s, a);
    if s' != s {
      var g: Goal :| g != ToRemove(true) && s' == s.(at := s.at[a.t := LockTest(g, false)]);
      ArrivalKeepsLock(s, a.t, g);
      ArrivalKeepsQueue(s, a.t, g);
    }
  }

  lemma ArrivalKeepsLock(s: State, t: Tid, g: Goal)
    requires LockInv(s) && t in s.at && s.at[t].Idle?
    ensures LockInv(s.(at := s.at[t := LockTest(g, false)]))
  {
  }

  lemma ArrivalKeepsQueue(s: State, t: Tid, g: Goal)
    requires QueueInv(s) && t in s.at && s.at[t].Idle?
    ensures QueueInv(s.(at := s.at[t := LockTest(g, false)]))
  {
    var s' := s.(at := s.at[t := LockTest(g, false)]);
    if s.lock.queue != [] && s.lock.value > 0 {
      var u :| u in s.at && s.at[u].LockTest? && s.at[u].woken;
      assert s'.at[u] == s.at[u];
    }
  }

  lemma CallKeepsList(s: State, a: Action)
    requires LockInv(s) && ListInv(s) && !a.Step?
    ensures ListInv(Next(s, a))
  {
  }

  lemma CallKeepsPendingInv(s: State, a: Action)
    requires PendingInv(s) && !a.Step?
    ensures PendingInv(Next(s, a))
  {
  }

  lemma CallKeepsWaiters(s: State, a: Action)
    requires LockInv(s) && WaiterInv(s) && WakeInv(s) && !a.Step?
    ensures WaiterInv(Next(s, a)) && WakeInv(Next(s, a))
  {
    CallEffect(s, a);
    var s' := Next(s, a);
    if s' != s {
      var g: Goal :| g != ToRemove(true) && s' == s.(at := s.at[a.t := LockTest(g, false)]);
      ArrivalKeepsWaiters(s, a.t, g);
    }
  }

  lemma ArrivalKeepsWaiters(s: State, t: Tid, g: Goal)
    requires LockInv(s) && WaiterInv(s) && WakeInv(s) && t in s.at && s.at[t].Idle? && g != ToRemove(true)
    ensures var s' := s.(at := s.at[t := LockTest(g, false)]); WaiterInv(s') && WakeInv(s')
  {
    var s' := s.(at := s.at[t := LockTest(g, false)]);
    WaiterFrame(s, s');
    assert InHand(s') == InHand(s);
    WakeFrame(s, s', t);
  }

  lemma ActionKeepsInv(s: State, a: Action)
    requires Inv(s)
    ensures Inv(Next(s, a))
  {
    if !a.Step? {
      CallKeepsLockQueueListInv(s, a);
      CallKeepsPendingInv(s, a);
      CallKeepsWaiters(s, a);
    } else if a.t in s.at {
      StepKeepsLockQueueListInv(s, a.t);
      StepKeepsWaiterInv(s, a.t);
      StepKeepsWakeInv(s, a.t);
      if s.at[a.t].AppendWrite? { LinkKeepsPendingInv(s, a.t); } else { StepKeepsPendingInv(s, a.t); }
    }
  }

  lemma {:induction false} EveryRun(threads: set<Tid>, acts: seq<Action>)
    ensures Inv(Run(Init(threads), acts))
    decreases |acts|
  {
    if acts == [] {
    } else {
      EveryRun(threads, acts[..|acts| - 1]);
      ActionKeepsInv(Run(Init(threads), acts[..|acts| - 1]), acts[|acts| - 1]);
    }
  }

  // ---------------------------------------------------------------------
  // Results, for any number of threads and every schedule

  // The items returned so far, the at most one that is being returned and the items still
  // listed are the items appended, in order.
  lemma FifoQueue(threads: set<Tid>, acts: seq<Action>)
    ensures var s := Run(Init(threads), acts);
            s.returned + InFlight(s) + s.list == s.appended && |InFlight(s)| <= 1
  {
    EveryRun(threads, acts);
  }

  // One step of the monitor is one operation of an atomic FIFO queue, or none: the list
  // grows at its end by the caller's item, or loses the front item, which that caller returns.
  ghost predicate QueueStep(s: State, s': State, a: Action) {
    || s'.list == s.list
    || (a.Step? && a.t in s.at && Pending(s.at[a.t]).Some? && s'.list == s.list + [Pending(s.at[a.t]).value])
    || (a.Step? && a.t in s.at && a.t in s'.at && s.list != [] && s'.list == s.list[1..] && s'.at[a.t] == FreeClear(Some(s.list[0])))
  }

  lemma StepRefinesQueue(s: State, a: Action)
    requires Inv(s)
    ensures QueueStep(s, Next(s, a), a)
  {
    if a.Step? && a.t in s.at {
      assert Local(s, s.at[a.t]);
      var p := s.at[a.t];
      if p.LockTest? || p.GotLock? || p.WaitEnqueue? || p.WaitClear? || p.WaitUnlock? || p.WaitTest? {
        OwnStep(s, a.t);
      } else if !(p.Idle? || p.LockAsleep? || p.WaitAsleep? || p.AppendWrite?) {
        OwnStepInMonitor(s, a.t);
      }
    }
  }

  // At most one thread is between the lock's P and its V, the lock's value says so, and
  // every ASSERT on the way holds: lockHolder is the caller wherever Lock::Release,
  // Condition::Wait and Condition::Signal check it, list->RemoveFront finds an item, and
  // list->Append finds its item absent.
  ghost predicate Exclusive(s: State) {
    && (forall t, u :: t in s.at && u in s.at && Inside(s.at[t]) && Inside(s.at[u]) ==> t == u)
    && s.lock.value == (if exists t :: t in s.at && Inside(s.at[t]) then 0 else 1)
    && (forall t :: t in s.at && Holding(s.at[t]) ==> s.holder == Some(t))
    && (forall t :: t in s.at && (s.at[t].RemoveRead? || s.at[t].RemoveWrite?) ==> s.list != [])
    && (forall t :: t in s.at && s.at[t].AppendWrite? ==> s.at[t].seen == s.list && s.at[t].item !in s.list)
  }

  lemma MutualExclusion(threads: set<Tid>, acts: seq<Action>)
    ensures Exclusive(Run(Init(threads), acts))
  {
    EveryRun(threads, acts);
    InvIsExclusive(Run(Init(threads), acts));
  }

  lemma InvIsExclusive(s: State)
    requires LockInv(s) && ListInv(s) && PendingInv(s)
    ensures Exclusive(s)
  {
    assert s.inside.Some? ==> Inside(s.at[s.inside.value]);
    forall t | t in s.at && (s.at[t].RemoveRead? || s.at[t].RemoveWrite? || s.at[t].AppendWrite?)
      ensures Local(s, s.at[t])
    {
    }
  }

  // No lost wake-up: when the lock is free and a consumer is still in waitQueue, there are
  // at least as many consumers on their way back as there are items, and none of them is
  // asleep on its waiter although Wait released the lock before calling P on it.
  lemma NoLostWakeUp(threads: set<Tid>, acts: seq<Action>)
    ensures var s := Run(Init(threads), acts);
            s.inside.None? && s.waitQueue != [] ==>
              && |s.list| <= |Signalled(s)|
              && forall t :: t in Signalled(s) ==> !s.at[t].WaitAsleep?
  {
    EveryRun(threads, acts);
    var s := Run(Init(threads), acts);
    if s.inside.None? && s.waitQueue != [] {
      forall t | t in Signalled(s)
        ensures !s.at[t].WaitAsleep?
      {
        assert t in s.waiters ==> WaiterOk(s.waiters[t], t, StageOf(s.at[t]), t in s.waitQueue || Posting(s) == Some(t));
      }
    }
  }

  // The thread can take a step by itself.
  predicate Enabled(p: Point) {
    !p.Idle? && !p.LockAsleep? && !p.WaitAsleep?
  }

  // The monitor cannot get stuck with work to do: when no thread can step, every thread is
  // idle or a consumer asleep in waitQueue, and if there is such a consumer the list is empty.
  ghost predicate StuckOnlyWhenEmpty(s: State) {
    (forall t :: t in s.at ==> !Enabled(s.at[t])) ==>
      && (forall t :: t in s.at ==> s.at[t].Idle? || (s.at[t].WaitAsleep? && t in s.waitQueue))
      && ((exists t :: t in s.at && !s.at[t].Idle?) ==> s.list == [])
  }

  lemma NeverStuckWithItems(threads: set<Tid>, acts: seq<Action>)
    ensures StuckOnlyWhenEmpty(Run(Init(threads), acts))
  {
    EveryRun(threads, acts);
    InvIsNeverStuck(Run(Init(threads), acts));
  }

  lemma InvIsNeverStuck(s: State)
    requires Inv(s)
    ensures StuckOnlyWhenEmpty(s)
  {
    if forall t :: t in s.at ==> !Enabled(s.at[t]) {
      NobodyInside(s);
      OnlyWaiters(s);
      assert Signalled(s) == {};
    }
  }

  lemma NobodyInside(s: State)
    requires LockInv(s) && QueueInv(s) && forall t :: t in s.at ==> !Enabled(s.at[t])
    ensures s.inside.None? && s.lock.queue == []
  {
    assert s.inside.Some? ==> Inside(s.at[s.inside.value]);
  }

  lemma OnlyWaiters(s: State)
    requires QueueInv(s) && WaiterInv(s) && s.inside.None? && s.lock.queue == [] && forall t :: t in s.at ==> !Enabled(s.at[t])
    ensures forall t :: t in s.at ==> s.at[t].Idle? || (s.at[t].WaitAsleep? && t in s.waitQueue)
  {
    forall t | t in s.at
      ensures s.at[t].Idle? || (s.at[t].WaitAsleep? && t in s.waitQueue)
    {
      assert t !in s.lock.queue;
      if s.at[t].WaitAsleep? {
        assert WaiterOk(s.waiters[t], t, StageOf(s.at[t]), t in s.waitQueue || Posting(s) == Some(t));
      }
    }
  }

  // ---------------------------------------------------------------------
  // Consumers are signalled in the order of their Waits

  ghost predicate TurnStep(s: State, s': State) {
    || (s'.waitQueue == s.waitQueue && s'.waits == s.waits && s'.popped == s.popped)
    || (exists t :: s'.waitQueue == s.waitQueue + [t] && s'.waits == s.waits + [t] && s'.popped == s.popped)
    || (s.waitQueue != [] && s'.waitQueue == s.waitQueue[1..] && s'.waits == s.waits && s'.popped == s.popped + [s.waitQueue[0]])
  }

  lemma StepTurns(s: State, t: Tid)
    requires t in s.at
    ensures TurnStep(s, StepThread(s, t))
  {
    var p := s.at[t];
    if p.WaitEnqueue? {
      assert StepThread(s, t).waitQueue == s.waitQueue + [t];
    }
  }

  lemma ActionTurns(s: State, a: Action)
    ensures TurnStep(s, Next(s, a))
  {
    if a.Step? && a.t in s.at {
      StepTurns(s, a.t);
    }
  }

  ghost predicate InOrder(s: State) {
    s.popped + s.waitQueue == s.waits
  }

  lemma TurnKeepsOrder(s: State, s': State)
    requires InOrder(s) && TurnStep(s, s')
    ensures InOrder(s') && s.waits <= s'.waits && s.popped <= s'.popped
  {
    assert s.waitQueue != [] ==> s.waitQueue == [s.waitQueue[0]] + s.waitQueue[1..];
  }

  lemma {:induction false} TurnsGrow(s: State, acts: seq<Action>)
    requires InOrder(s)
    ensures InOrder(Run(s, acts)) && s.waits <= Run(s, acts).waits && s.popped <= Run(s, acts).popped
    decreases |acts|
  {
    if acts != [] {
      var before := Run(s, acts[..|acts| - 1]);
      TurnsGrow(s, acts[..|acts| - 1]);
      ActionTurns(before, acts[|acts| - 1]);
      TurnKeepsOrder(before, Next(before, acts[|acts| - 1]));
    }
  }

  lemma {:induction false} RunInTwoParts(s: State, before: seq<Action>, after: seq<Action>)
    ensures Run(s, before + after) == Run(Run(s, before), after)
    decreases |after|
  {
    if after == [] {
      assert before + after == before;
    } else {
      RunInTwoParts(s, before, after[..|after| - 1]);
      assert (before + after)[..|before + after| - 1] == before + after[..|after| - 1];
    }
  }

  // A consumer behind k others in waitQueue is signalled after exactly these k.
  lemma SignalledInTurn(threads: set<Tid>, before: seq<Action>, after: seq<Action>, k: nat)
    ensures var s := Run(Init(threads), before);
            var s' := Run(Init(threads), before + after);
            k < |s.waitQueue| && |s'.popped| > |s.popped| + k ==>
              s'.popped[|s.popped|..|s.popped| + k + 1] == s.waitQueue[..k + 1]
  {
    var s := Run(Init(threads), before);
    RunInTwoParts(Init(threads), before, after);
    TurnsGrow(Init(threads), before);
    TurnsGrow(s, after);
    InTurn(s.popped, s.waitQueue, s.waits, Run(s, after).popped, Run(s, after).waitQueue, Run(s, after).waits, k);
  }

  // ---------------------------------------------------------------------
  // The item of a call is the item that is linked in

  lemma CallTakesItem(s: State, t: Tid, x: Item)
    requires t in s.at && s.at[t].Idle? && Available(s, x)
    ensures var s' := Next(s, CallAppend(t, x)); t in s'.at && Pending(s'.at[t]) == Some(x)
  {
  }

  // The thread still carries its item, or has just linked it in.
  ghost predicate Carries(s: State, s': State, t: Tid, a: Action)
    requires t in s.at && Pending(s.at[t]).Some?
  {
    && t in s'.at
    && (|| Pending(s'.at[t]) == Pending(s.at[t])
        || (a == Step(t) && s'.appended == s.appended + [Pending(s.at[t]).value] && s'.at[t] == Signal))
  }

  lemma ItemUntilLinked(s: State, a: Action, t: Tid)
    requires t in s.at && Pending(s.at[t]).Some?
    ensures Carries(s, Next(s, a), t, a)
  {
    if a.Step? && a.t in s.at {
      if a.t == t {
        OwnItem(s, t);
      } else {
        StepOthers(s, a.t);
        OthersKeep(s, StepThread(s, a.t), a.t);
      }
    }
  }

  lemma OwnItem(s: State, t: Tid)
    requires t in s.at && Pending(s.at[t]).Some?
    ensures Carries(s, StepThread(s, t), t, Step(t))
  {
    var p := s.at[t];
    assert p.LockTest? || p.LockAsleep? || p.GotLock? || p.AppendRead? || p.AppendWrite?;
  }

  // The waiter that Condition::Wait deletes is on no queue, has no sleeper, and no signaller
  // is about to post it.
  lemma DeletedWaiterIsUnused(threads: set<Tid>, acts: seq<Action>, t: Tid)
    ensures var s := Run(Init(threads), acts);
            t in s.at && s.at[t] == GotLock(ToRemove(true)) ==>
              t in s.waiters && s.waiters[t] == Sem(0, []) && t !in s.waitQueue && Posting(s) != Some(t)
  {
    EveryRun(threads, acts);
    var s := Run(Init(threads), acts);
    if t in s.at && s.at[t] == GotLock(ToRemove(true)) {
      assert WaiterOk(s.waiters[t], t, StageOf(s.at[t]), t in s.waitQueue || Posting(s) == Some(t));
    }
  }
}
