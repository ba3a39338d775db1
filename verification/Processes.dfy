// The process table and the rendezvous of Exit and Join (threads/ptable.cc, threads/pcb.cc).
module Processes {
  import opened Bitmaps

  // The fields of a process control block that Exit and Join use; the semaphores by their values.
  datatype Pcb = Pcb(parentID: int, exitcode: int, joinsem: nat, exitsem: nat)

  // The slots in use, and what is in them.
  datatype Slots = Slots(bm: seq<bool>, pcb: seq<Pcb>)

  function FreeSlot(t: Slots): (pid: int)
    ensures pid == -1 || (0 <= pid < |t.bm| && !t.bm[pid])
    ensures pid == -1 <==> forall i :: 0 <= i < |t.bm| ==> t.bm[i]
  {
    FirstClear(t.bm)
  }

  function Occupied(t: Slots, pid: nat, parent: int): Slots
    requires pid < |t.bm| == |t.pcb|
  {
    Slots(t.bm[pid := true], t.pcb[pid := Pcb(parent, 0, 0, 0)])
  }

  function Vacated(t: Slots, pid: nat): Slots
    requires pid < |t.bm|
  {
    t.(bm := t.bm[pid := false])
  }

  const MAX_PROCESS := 10

  function Initial(size: nat): Slots
    requires size > 0
  {
    Slots(seq(size, i => false)[0 := true], seq(size, i => Pcb(-1, 0, 0, 0)))
  }

  class PTable {
    var bm: Bitmap
    var pcb: array<Pcb>

    ghost predicate Valid()
      reads this, bm, bm.words, pcb
    {
      bm.Valid() && bm.numBits == pcb.Length
    }

    ghost function View(): Slots
      requires Valid()
      reads this, bm, bm.words, pcb
    {
      Slots(bm.Contents(), pcb[..])
    }

    // The table with the main process in slot 0.
    constructor (size: nat)
      requires size > 0
      ensures Valid() && fresh(bm) && fresh(bm.words) && fresh(pcb)
      ensures View() == Initial(if size > MAX_PROCESS then MAX_PROCESS else size)
      ensures pcb.Length == (if size > MAX_PROCESS then MAX_PROCESS else size) && forall i :: 0 <= i < pcb.Length ==> (bm.Contents()[i] <==> i == 0) && pcb[i].parentID == -1
    {
      var psize := if size > MAX_PROCESS then MAX_PROCESS else size;
      var free := new Bitmap(psize);
      free.Mark(0);
      bm := free;
      pcb := new Pcb[psize](i => Pcb(-1, 0, 0, 0));
    }

    // ExecUpdate, once the program's name has been accepted.
    method Exec(parent: int) returns (pid: int)
      requires Valid()
      modifies bm.words, pcb
      ensures Valid() && pid == FreeSlot(old(View()))
      ensures View() == if pid < 0 then old(View()) else Occupied(old(View()), pid, parent)
      ensures pid < 0 ==> forall i :: 0 <= i < pcb.Length ==> old(bm.Contents())[i]
      ensures pid >= 0 ==> pid < pcb.Length && !old(bm.Contents())[pid] && forall i :: 0 <= i < pid ==> old(bm.Contents())[i]
      ensures pid >= 0 ==> pcb[pid].parentID == parent && pcb[pid].joinsem == pcb[pid].exitsem == 0
      ensures forall i :: 0 <= i < pcb.Length && i != pid ==> pcb[i] == old(pcb[i])
      ensures forall i :: 0 <= i < pcb.Length ==> (bm.Contents()[i] <==> old(bm.Contents())[i] || i == pid)
    {
      pid := bm.FindAndSet();
      if pid >= 0 {
        pcb[pid] := Pcb(parent, 0, 0, 0);
      }
    }

    method Remove(pid: nat)
      requires Valid() && pid < pcb.Length
      modifies bm.words
      ensures Valid() && View() == Vacated(old(View()), pid)
      ensures forall i :: 0 <= i < pcb.Length ==> (bm.Contents()[i] <==> old(bm.Contents())[i] && i != pid)
    {
      bm.Clear(pid);
    }
  }
}

// Any number of processes that exec, exit and join, in any interleaving.
module ProcessRuns {
  import opened Collections
  import opened Processes

  // Processes are told apart by serial numbers, since slots are used again.
  type Uid = nat

  datatype Pc =
    | Running
    | Exiting                                   // exit code set
    | AwaitExit                                 // joinsem signalled; waits for exitsem
    | Gone
    | Joining(id: nat, child: Uid)              // waits for joinsem of the child
    | Reading(id: nat, child: Uid)              // reads the child's exit code
    | Releasing(id: nat, child: Uid, ec: int)   // signals exitsem of the child

  // How far the join of a process has got.
  datatype Link = Unjoined | Awaited | Taken | CodeRead | Released

  // A process: where it is, its slot, and history: its parent, how far its join has got, the code it passed
  // to Exit, and the code that Join returned for it, which no step looks at; and the children it has not joined,
  // which only say what the program may still join.
  datatype Proc = Proc(pc: Pc, pid: nat, parent: Option<Uid>, link: Link, code: Option<int>, joined: Option<int>, kids: set<Uid>)

  // owner is history, too: who is in which slot.
  datatype State = State(slots: Slots, procs: seq<Proc>, owner: seq<Option<Uid>>)

  datatype Action =
    | Exec(u: Uid)
    | Exit(u: Uid, code: int)
    | SignalExit(u: Uid)
    | Leave(u: Uid)
    | Join(u: Uid, child: Uid)   // with the id that Exec returned for this child
    | TakeJoin(u: Uid)
    | ReadCode(u: Uid)
    | Release(u: Uid)

  predicate Busy(pc: Pc) {
    pc.Joining? || pc.Reading? || pc.Releasing?
  }

  predicate Shape(s: State) {
    && |s.slots.bm| == |s.slots.pcb| == |s.owner|
    && (forall u :: 0 <= u < |s.procs| ==> s.procs[u].pid < |s.owner|)
    && (forall u :: 0 <= u < |s.procs| ==> var pc := s.procs[u].pc;
          Busy(pc) ==> pc.id < |s.owner| && pc.child < |s.procs| && pc.child != u)
  }

  predicate Enabled(s: State, a: Action)
    requires Shape(s)
  {
    && a.u < |s.procs|
    && var p := s.procs[a.u];
       match a
       case Exec(u) => p.pc == Running && FreeSlot(s.slots) >= 0
       case Exit(u, _) => p.pc == Running && p.pid != 0
       case SignalExit(u) => p.pc == Exiting
       case Leave(u) => p.pc == AwaitExit && s.slots.pcb[p.pid].exitsem > 0
       // a program joins only its own children, and each of them once; the kernel checks the parent's id
       case Join(u, c) => p.pc == Running && c in p.kids && c < |s.procs| && c != u && s.slots.pcb[s.procs[c].pid].parentID == p.pid
       case TakeJoin(u) => p.pc.Joining? && s.slots.pcb[p.pc.id].joinsem > 0
       case ReadCode(u) => p.pc.Reading?
       case Release(u) => p.pc.Releasing?
  }

  function SetPcb(t: Slots, id: nat, p: Pcb): Slots
    requires id < |t.pcb|
  {
    t.(pcb := t.pcb[id := p])
  }

  function Effect(s: State, a: Action): State
    requires Shape(s) && Enabled(s, a)
  {
    var p := s.procs[a.u];
    var own := s.slots.pcb[p.pid];
    match a
    case Exec(u) =>
      var id := FreeSlot(s.slots);
      var n := |s.procs|;
      State(Occupied(s.slots, id, p.pid), s.procs[u := p.(kids := p.kids + {n})] + [Proc(Running, id, Some(u), Unjoined, None, None, {})], s.owner[id := Some(n)])
    case Exit(u, code) =>
      s.(slots := SetPcb(s.slots, p.pid, own.(exitcode := code)), procs := s.procs[u := p.(pc := Exiting, code := Some(code))])
    case SignalExit(u) =>
      s.(slots := SetPcb(s.slots, p.pid, own.(joinsem := own.joinsem + 1)), procs := s.procs[u := p.(pc := AwaitExit)])
    case Leave(u) =>
      State(Vacated(SetPcb(s.slots, p.pid, own.(exitsem := own.exitsem - 1)), p.pid), s.procs[u := p.(pc := Gone)], s.owner[p.pid := None])
    case Join(u, c) =>
      s.(procs := s.procs[u := p.(pc := Joining(s.procs[c].pid, c), kids := p.kids - {c})][c := s.procs[c].(link := Awaited)])
    case TakeJoin(u) =>
      var id, c, q := p.pc.id, p.pc.child, s.slots.pcb[p.pc.id];
      s.(slots := SetPcb(s.slots, id, q.(joinsem := q.joinsem - 1)), procs := s.procs[u := p.(pc := Reading(id, c))][c := s.procs[c].(link := Taken)])
    case ReadCode(u) =>
      var id, c := p.pc.id, p.pc.child;
      s.(procs := s.procs[u := p.(pc := Releasing(id, c, s.slots.pcb[id].exitcode))][c := s.procs[c].(link := CodeRead)])
    case Release(u) =>
      var id, c, q := p.pc.id, p.pc.child, s.slots.pcb[p.pc.id];
      s.(slots := SetPcb(s.slots, id, q.(exitsem := q.exitsem + 1)),
         procs := s.procs[u := p.(pc := Running)][c := s.procs[c].(link := Released, joined := Some(p.pc.ec))])
  }

  function Next(s: State, a: Action): State {
    if Shape(s) && Enabled(s, a) then Effect(s, a) else s
  }

  function Run(s: State, acts: seq<Action>): State {
    if acts == [] then s else Next(Run(s, acts[..|acts| - 1]), acts[|acts| - 1])
  }

  function Booted(size: nat): State
    requires size > 0
  {
    State(Initial(size), [Proc(Running, 0, None, Unjoined, None, None, {})], seq(size, i => None)[0 := Some(0)])
  }

  // ---------------------------------------------------------------------
  // What every step keeps

  // A slot is in use exactly if a process that is not gone has it.
  predicate SlotOk(s: State, i: nat)
    requires Shape(s) && i < |s.owner|
  {
    && (s.slots.bm[i] <==> s.owner[i].Some?)
    && (s.owner[i].Some? ==> var u := s.owner[i].value; u < |s.procs| && s.procs[u].pid == i && s.procs[u].pc != Gone)
  }

  predicate OwnerOk(s: State, u: Uid)
    requires Shape(s) && u < |s.procs|
  {
    s.procs[u].pc != Gone ==> s.owner[s.procs[u].pid] == Some(u)
  }

  // The semaphores and the exit code of a process say how far its exit and its join have got.
  predicate Signals(p: Proc, q: Pcb) {
    && (p.pc in {Exiting, AwaitExit} ==> p.code == Some(q.exitcode))
    && (if p.pc != AwaitExit then q.joinsem == q.exitsem == 0 && p.link in {Unjoined, Awaited}
        else q.joinsem == (if p.link in {Unjoined, Awaited} then 1 else 0) && q.exitsem == (if p.link == Released then 1 else 0))
  }

  predicate SignalsOk(s: State, u: Uid)
    requires Shape(s) && u < |s.procs|
  {
    s.procs[u].pc != Gone ==> Signals(s.procs[u], s.slots.pcb[s.procs[u].pid])
  }

  // A process that joins stands where the link of its child says.
  predicate Joins(pc: Pc, u: Uid, c: Proc)
    requires Busy(pc)
  {
    && c.parent == Some(u) && c.pid == pc.id && c.pc != Gone
    && c.link == (if pc.Joining? then Awaited else if pc.Reading? then Taken else CodeRead)
    && (pc.Releasing? ==> c.code == Some(pc.ec))
  }

  predicate JoinerOk(s: State, u: Uid)
    requires Shape(s) && u < |s.procs|
  {
    var pc := s.procs[u].pc;
    Busy(pc) ==> Joins(pc, u, s.procs[pc.child])
  }

  predicate ResultOk(p: Proc) {
    && (p.joined.Some? ==> p.joined == p.code)
    && (p.link == Released || p.pc == Gone ==> p.joined.Some?)
    && (p.code.Some? <==> p.pc in {Exiting, AwaitExit, Gone})
  }

  predicate ProcOk(s: State, u: Uid)
    requires Shape(s) && u < |s.procs|
  {
    OwnerOk(s, u) && SignalsOk(s, u) && JoinerOk(s, u) && ResultOk(s.procs[u])
  }

  predicate ChildOk(s: State, u: Uid, c: Uid)
    requires Shape(s) && u < |s.procs|
  {
    && c < |s.procs| && c != u && s.procs[c].parent == Some(u) && s.procs[c].link == Unjoined && s.procs[c].pc != Gone
    && s.slots.pcb[s.procs[c].pid].parentID == s.procs[u].pid
  }

  ghost predicate Inv(s: State) {
    && Shape(s)
    && (forall i :: 0 <= i < |s.owner| ==> SlotOk(s, i))
    && (forall u :: 0 <= u < |s.procs| ==> ProcOk(s, u))
    && (forall u, c :: 0 <= u < |s.procs| && c in s.procs[u].kids ==> ChildOk(s, u, c))
  }

  // ---------------------------------------------------------------------
  // A step as seen from one slot, one process and one child. What each needs to know is about itself, about the
  // process that steps, and about the child that this process joins.

  lemma ShapeStays(s: State, a: Action)
    requires Shape(s) && Enabled(s, a)
    ensures Shape(Effect(s, a))
  {
    var s' := Effect(s, a);
    forall u | 0 <= u < |s'.procs|
      ensures s'.procs[u].pid < |s'.owner|
      ensures Busy(s'.procs[u].pc) ==> s'.procs[u].pc.id < |s'.owner| && s'.procs[u].pc.child < |s'.procs| && s'.procs[u].pc.child != u
    {
      assert u < |s.procs| ==> s.procs[u].pid < |s.owner|;
    }
  }

  // The child that a step is about, or the stepping process itself.
  function Other(s: State, a: Action): Uid
    requires Shape(s) && a.u < |s.procs|
  {
    if a.Join? then a.child else if Busy(s.procs[a.u].pc) then s.procs[a.u].pc.child else a.u
  }

  // The slots that a step is about: its own, its child's, and the one it takes.
  predicate Known(s: State, a: Action)
    requires Shape(s) && Enabled(s, a)
  {
    && ProcOk(s, a.u) && ProcOk(s, Other(s, a))
    && (a.Join? ==> ChildOk(s, a.u, a.child))
    && (a.Exec? ==> SlotOk(s, FreeSlot(s.slots)))
  }

  lemma SlotStays(s: State, a: Action, i: nat)
    requires Shape(s) && Enabled(s, a) && Shape(Effect(s, a)) && Known(s, a) && i < |s.owner| && SlotOk(s, i)
    ensures |Effect(s, a).owner| == |s.owner| && SlotOk(Effect(s, a), i)
  {
  }

  lemma OwnerStays(s: State, a: Action, u: Uid)
    requires Shape(s) && Enabled(s, a) && Shape(Effect(s, a)) && Known(s, a) && u < |Effect(s, a).procs|
    requires u < |s.procs| ==> OwnerOk(s, u)
    ensures OwnerOk(Effect(s, a), u)
  {
  }

  lemma SignalsStay(s: State, a: Action, u: Uid)
    requires Shape(s) && Enabled(s, a) && Shape(Effect(s, a)) && Known(s, a) && u < |Effect(s, a).procs|
    requires u < |s.procs| ==> ProcOk(s, u)
    ensures SignalsOk(Effect(s, a), u)
  {
  }

  lemma JoinerStays(s: State, a: Action, u: Uid)
    requires Shape(s) && Enabled(s, a) && Shape(Effect(s, a)) && u < |Effect(s, a).procs|
    requires u < |s.procs| ==> JoinerOk(s, u)
    requires JoinerOk(s, a.u) && SignalsOk(s, a.u) && SignalsOk(s, Other(s, a)) && (a.Join? ==> ChildOk(s, a.u, a.child))
    ensures JoinerOk(Effect(s, a), u)
  {
    if u == a.u {
      OwnJoinStays(s, a);
    } else if u < |s.procs| && Busy(s.procs[u].pc) {
      OthersJoinStays(s, a, u);
    }
  }

  lemma OwnJoinStays(s: State, a: Action)
    requires Shape(s) && Enabled(s, a) && Shape(Effect(s, a))
    requires JoinerOk(s, a.u) && SignalsOk(s, Other(s, a)) && (a.Join? ==> ChildOk(s, a.u, a.child))
    ensures JoinerOk(Effect(s, a), a.u)
  {
  }

  lemma OthersJoinStays(s: State, a: Action, u: Uid)
    requires Shape(s) && Enabled(s, a) && Shape(Effect(s, a)) && u < |s.procs| && u != a.u && Busy(s.procs[u].pc)
    requires Joins(s.procs[u].pc, u, s.procs[s.procs[u].pc.child])
    requires JoinerOk(s, a.u) && SignalsOk(s, a.u) && (a.Join? ==> ChildOk(s, a.u, a.child))
    ensures var pc := s.procs[u].pc;
            Effect(s, a).procs[u].pc == pc && Joins(pc, u, Effect(s, a).procs[pc.child])
  {
  }

  lemma ResultStays(s: State, a: Action, u: Uid)
    requires Shape(s) && Enabled(s, a) && Shape(Effect(s, a)) && Known(s, a) && u < |Effect(s, a).procs|
    requires u < |s.procs| ==> ProcOk(s, u)
    ensures ResultOk(Effect(s, a).procs[u])
  {
  }

  lemma ChildStays(s: State, a: Action, u: Uid, c: Uid)
    requires Shape(s) && Enabled(s, a) && Shape(Effect(s, a)) && u < |Effect(s, a).procs| && c in Effect(s, a).procs[u].kids
    requires u < |s.procs| && c in s.procs[u].kids ==> ChildOk(s, u, c) && OwnerOk(s, c)
    requires JoinerOk(s, a.u) && SignalsOk(s, a.u) && (a.Join? ==> ChildOk(s, a.u, a.child)) && (a.Exec? ==> SlotOk(s, FreeSlot(s.slots)))
    ensures ChildOk(Effect(s, a), u, c)
  {
  }

  lemma StepKeepsInv(s: State, a: Action)
    requires Inv(s) && Enabled(s, a)
    ensures Inv(Effect(s, a))
  {
    var s' := Effect(s, a);
    ShapeStays(s, a);
    assert ProcOk(s, a.u) && (a.Join? ==> ChildOk(s, a.u, a.child));
    assert ProcOk(s, Other(s, a));
    assert Known(s, a);
    forall i | 0 <= i < |s'.owner|
      ensures SlotOk(s', i)
    {
      assert SlotOk(s, i);
      SlotStays(s, a, i);
    }
    forall u | 0 <= u < |s'.procs|
      ensures ProcOk(s', u)
    {
      assert u < |s.procs| ==> ProcOk(s, u);
      OwnerStays(s, a, u);
      SignalsStay(s, a, u);
      JoinerStays(s, a, u);
      ResultStays(s, a, u);
    }
    forall u, c | 0 <= u < |s'.procs| && c in s'.procs[u].kids
      ensures ChildOk(s', u, c)
    {
      assert u < |s.procs| && c in s.procs[u].kids ==> ChildOk(s, u, c) && ProcOk(s, c);
      ChildStays(s, a, u, c);
    }
  }

  lemma {:induction false} EveryRun(size: nat, acts: seq<Action>)
    requires size > 0
    ensures Inv(Run(Booted(size), acts))
  {
    if acts != [] {
      var s, a := Run(Booted(size), acts[..|acts| - 1]), acts[|acts| - 1];
      EveryRun(size, acts[..|acts| - 1]);
      if Enabled(s, a) {
        StepKeepsInv(s, a);
      }
    }
  }

  // ---------------------------------------------------------------------
  // The results

  // Whatever Join returned for a child is the code that the child passed to Exit; and a child that has left
  // its slot has been joined: the slot is cleared only after the code was read.
  lemma JoinReturnsExitCode(size: nat, acts: seq<Action>, u: Uid)
    requires size > 0
    ensures var s := Run(Booted(size), acts);
            u < |s.procs| ==>
              && (s.procs[u].joined.Some? ==> s.procs[u].joined == s.procs[u].code)
              && (s.procs[u].pc == Gone ==> s.procs[u].joined.Some?)
  {
    EveryRun(size, acts);
    assert u < |Run(Booted(size), acts).procs| ==> ProcOk(Run(Booted(size), acts), u);
  }

  // While a Join is under way, the slot it looks at still belongs to the child it was called for.
  lemma SlotStaysWithChild(size: nat, acts: seq<Action>, u: Uid)
    requires size > 0
    ensures var s := Run(Booted(size), acts);
            u < |s.procs| && Busy(s.procs[u].pc) ==>
              var c := s.procs[u].pc.child;
              && c < |s.procs| && s.procs[u].pc.id < |s.owner| == |s.slots.bm| && s.owner[s.procs[u].pc.id] == Some(c) && s.slots.bm[s.procs[u].pc.id]
              && (s.procs[u].pc.Releasing? ==> s.procs[c].code == Some(s.procs[u].pc.ec))
  {
    EveryRun(size, acts);
    var s := Run(Booted(size), acts);
    if u < |s.procs| && Busy(s.procs[u].pc) {
      assert ProcOk(s, u) && ProcOk(s, s.procs[u].pc.child);
      assert SlotOk(s, s.procs[u].pc.id);
    }
  }

  // The rendezvous never gets stuck: a Join waits only for a child that has not signalled its exit yet, and
  // a child waits to leave only until its parent has read its code.
  lemma NobodyWaitsInVain(size: nat, acts: seq<Action>, u: Uid)
    requires size > 0
    ensures var s := Run(Booted(size), acts);
            Shape(s) && (u < |s.procs| ==>
              && (s.procs[u].pc.Joining? && !Enabled(s, TakeJoin(u)) ==> s.procs[s.procs[u].pc.child].pc !in {AwaitExit, Gone})
              && (s.procs[u].pc == AwaitExit && !Enabled(s, Leave(u)) ==> s.procs[u].joined.None? || s.procs[u].link != Released))
  {
    EveryRun(size, acts);
    var s := Run(Booted(size), acts);
    if u < |s.procs| && s.procs[u].pc.Joining? {
      assert ProcOk(s, u) && ProcOk(s, s.procs[u].pc.child);
    }
    assert u < |s.procs| ==> ProcOk(s, u);
  }

  // Exec never returns an id that is still in use: any two processes that are not gone have different ids.
  lemma IdsDiffer(size: nat, acts: seq<Action>, u: Uid, v: Uid)
    requires size > 0
    ensures var s := Run(Booted(size), acts);
            u < |s.procs| && v < |s.procs| && u != v && s.procs[u].pc != Gone && s.procs[v].pc != Gone ==> s.procs[u].pid != s.procs[v].pid
  {
    EveryRun(size, acts);
    var s := Run(Booted(size), acts);
    assert u < |s.procs| && v < |s.procs| ==> ProcOk(s, u) && ProcOk(s, v);
  }

  // The kernel's check of the parent's id never rejects a program that joins its own child.
  lemma JoinIsAccepted(size: nat, acts: seq<Action>, u: Uid, c: Uid)
    requires size > 0
    ensures var s := Run(Booted(size), acts);
            u < |s.procs| && s.procs[u].pc == Running && c in s.procs[u].kids ==> Shape(s) && Enabled(s, Join(u, c))
  {
    EveryRun(size, acts);
    var s := Run(Booted(size), acts);
    if u < |s.procs| && c in s.procs[u].kids {
      assert ChildOk(s, u, c);
    }
  }
}
