// Condition variables (threads/synch.cc): the calls that never block.
module Conditions {
  import opened Collections
  import opened Semaphores

  class Condition {
    // One semaphore per thread in Wait, in the order of the Waits.
    var waitQueue: seq<Semaphore>

    // Every Wait allocates a semaphore of its own.
    ghost predicate Valid()
      reads this
    {
      NoDup(waitQueue)
    }

    method Signal() returns (woken: Option<Tid>)
      requires Valid()
      modifies this, waitQueue
      ensures Valid() && waitQueue == if old(waitQueue) == [] then [] else old(waitQueue)[1..]
      ensures woken == if old(waitQueue) == [] then None else FirstAsleep(old(waitQueue[0].Model()))
      ensures old(waitQueue) != [] ==> old(waitQueue)[0].Model() == Post(old(waitQueue[0].Model()))
      ensures forall i :: 1 <= i < |old(waitQueue)| ==> old(waitQueue)[i].Model() == old(waitQueue[i].Model())
    {
      woken := None;
      if waitQueue != [] {
        var waiter := waitQueue[0];
        waitQueue := waitQueue[1..];
        woken := waiter.V();
      }
    }

    // Every thread in Wait gets exactly one unit, and nobody is left in the queue. A semaphore made by Wait has at most
    // its own thread asleep on it, so afterwards nobody sleeps, and whoever has not slept yet finds its unit.
    method Broadcast()
      requires Valid()
      modifies this, waitQueue
      ensures Valid() && waitQueue == []
      ensures forall i :: 0 <= i < |old(waitQueue)| ==> old(waitQueue)[i].Model() == Post(old(waitQueue[i].Model()))
      ensures forall i :: 0 <= i < |old(waitQueue)| && |old(waitQueue[i].queue)| <= 1 ==>
                old(waitQueue)[i].queue == [] && old(waitQueue)[i].value == old(waitQueue[i].value) + 1
    {
      ghost var all, n := waitQueue, 0;
      while waitQueue != []
        invariant 0 <= n <= |all| && waitQueue == all[n..]
        invariant forall i :: 0 <= i < n ==> all[i].Model() == Post(old(all[i].Model()))
        invariant forall i :: n <= i < |all| ==> all[i].Model() == old(all[i].Model())
        decreases |all| - n
      {
        var _ := Signal();
        n := n + 1;
      }
    }
  }
}
