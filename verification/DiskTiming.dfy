// When the simulated disk completes its requests (machine/disk.cc).
module DiskTiming {
  import opened Disks

  const SECTORS_PER_TRACK := 32
  const NUM_TRACKS := 32
  const ROTATION_TIME := 500
  const SEEK_TIME := 500

  function Abs(n: int): nat {
    if n < 0 then -n else n
  }

  function SeekFrom(lastSector: nat, newSector: nat): nat {
    Abs(newSector / SECTORS_PER_TRACK - lastSector / SECTORS_PER_TRACK) * SEEK_TIME
  }

  // How long until the next sector boundary after the seek.
  function Rotation(now: nat, seek: nat): nat {
    var over := (now + seek) % ROTATION_TIME;
    if over > 0 then ROTATION_TIME - over else 0
  }

  function TimeAfter(now: nat, seek: nat): (t: nat)
    ensures t % ROTATION_TIME == 0 && now + seek <= t < now + seek + ROTATION_TIME
  {
    now + seek + Rotation(now, seek)
  }

  function ModuloDiff(to: nat, from: nat): (d: nat)
    ensures d < SECTORS_PER_TRACK && (from + d) % SECTORS_PER_TRACK == to % SECTORS_PER_TRACK
  {
    var toOffset, fromOffset := to % SECTORS_PER_TRACK, from % SECTORS_PER_TRACK;
    Rotated(from, toOffset, fromOffset);
    ((toOffset - fromOffset) + SECTORS_PER_TRACK) % SECTORS_PER_TRACK
  }

  // Turning the platter on by the difference, once round if need be, arrives at the target.
  lemma Rotated(from: nat, t: nat, f: nat)
    requires t < SECTORS_PER_TRACK && f == from % SECTORS_PER_TRACK
    ensures var d := ((t - f) + SECTORS_PER_TRACK) % SECTORS_PER_TRACK;
            0 <= d < SECTORS_PER_TRACK && (from + d) % SECTORS_PER_TRACK == t
  {
    var q, d := from / SECTORS_PER_TRACK, if t >= f then t - f else t - f + SECTORS_PER_TRACK;
    TrackMod((t - f) + SECTORS_PER_TRACK, if t >= f then 1 else 0, d);
    TrackMod(from + d, if t >= f then q else q + 1, t);
  }

  lemma TrackMod(x: nat, q: nat, r: nat)
    requires x == SECTORS_PER_TRACK * q + r && r < SECTORS_PER_TRACK
    ensures x % SECTORS_PER_TRACK == r
  {
  }

  predicate BufferHit(now: nat, lastSector: nat, bufferInit: nat, newSector: nat, writing: bool) {
    var seek := SeekFrom(lastSector, newSector);
    var elapsed := TimeAfter(now, seek) - bufferInit;
    !writing && seek == 0 && elapsed >= 0 && elapsed / ROTATION_TIME > ModuloDiff(newSector, bufferInit / ROTATION_TIME)
  }

  function Latency(now: nat, lastSector: nat, bufferInit: nat, newSector: nat, writing: bool): nat {
    if BufferHit(now, lastSector, bufferInit, newSector, writing) then ROTATION_TIME
    else
      var seek := SeekFrom(lastSector, newSector);
      seek + Rotation(now, seek) + ModuloDiff(newSector, TimeAfter(now, seek) / ROTATION_TIME) * ROTATION_TIME + ROTATION_TIME
  }

  // The head moves one track per SEEK_TIME: no time within a track, SEEK_TIME to a neighbour, the same there
  // and back, and times add up on the way across tracks.
  lemma SeekIsDistance(a: nat, b: nat, c: nat)
    ensures SeekFrom(a, b) == 0 <==> a / SECTORS_PER_TRACK == b / SECTORS_PER_TRACK
    ensures SeekFrom(a, a + SECTORS_PER_TRACK) == SEEK_TIME
    ensures SeekFrom(a, b) == SeekFrom(b, a)
    ensures a / SECTORS_PER_TRACK <= b / SECTORS_PER_TRACK <= c / SECTORS_PER_TRACK ==> SeekFrom(a, c) == SeekFrom(a, b) + SeekFrom(b, c)
  {
  }

  // ---------------------------------------------------------------------
  // The platter: during its k-th slot of time, from k * ROTATION_TIME on, one sector passes the head.

  predicate Passes(sector: nat, slot: nat) {
    slot % SECTORS_PER_TRACK == sector % SECTORS_PER_TRACK
  }

  // end is the boundary at which the sector has passed the head for the first time from a moment on.
  ghost predicate FirstPassEnds(sector: nat, from: nat, end: nat) {
    && end > 0 && end % ROTATION_TIME == 0
    && var slot := end / ROTATION_TIME - 1;
       && Passes(sector, slot) && slot * ROTATION_TIME >= from
       && forall k: nat :: Passes(sector, k) && k * ROTATION_TIME >= from ==> k >= slot
  }

  // The sector has fully passed the head at least once between two moments.
  ghost predicate Passed(sector: nat, from: nat, until: nat) {
    exists k: nat :: Passes(sector, k) && from <= k * ROTATION_TIME && (k + 1) * ROTATION_TIME <= until
  }

  // A request that misses the track buffer completes when the sector has passed the head, for the first
  // time after the seek; that is the boundary after the target sector.
  lemma MissEndsAfterSector(now: nat, lastSector: nat, bufferInit: nat, newSector: nat, writing: bool)
    requires !BufferHit(now, lastSector, bufferInit, newSector, writing)
    ensures var end := now + Latency(now, lastSector, bufferInit, newSector, writing);
            && FirstPassEnds(newSector, now + SeekFrom(lastSector, newSector), end)
            && (end / ROTATION_TIME) % SECTORS_PER_TRACK == (newSector + 1) % SECTORS_PER_TRACK
  {
    var seek := SeekFrom(lastSector, newSector);
    var first := TimeAfter(now, seek) / ROTATION_TIME;
    var slot := first + ModuloDiff(newSector, first);
    EndOfSlot(slot, newSector);
    MissEnd(now, lastSector, bufferInit, newSector, writing);
    forall k: nat | Passes(newSector, k) && k * ROTATION_TIME >= now + seek
      ensures k >= slot
    {
      NextPass(newSector, first, k);
    }
  }

  lemma MissEnd(now: nat, lastSector: nat, bufferInit: nat, newSector: nat, writing: bool)
    requires !BufferHit(now, lastSector, bufferInit, newSector, writing)
    ensures var first := TimeAfter(now, SeekFrom(lastSector, newSector)) / ROTATION_TIME;
            now + Latency(now, lastSector, bufferInit, newSector, writing) == (first + ModuloDiff(newSector, first) + 1) * ROTATION_TIME
  {
  }

  lemma EndOfSlot(slot: nat, sector: nat)
    requires Passes(sector, slot)
    ensures var end := (slot + 1) * ROTATION_TIME;
            && end % ROTATION_TIME == 0 && end / ROTATION_TIME == slot + 1
            && (slot + 1) % SECTORS_PER_TRACK == (sector + 1) % SECTORS_PER_TRACK
  {
  }

  lemma NextPass(sector: nat, first: nat, k: nat)
    requires Passes(sector, k) && k >= first
    ensures k >= first + ModuloDiff(sector, first)
  {
  }

  // The first pass since the buffer was begun is over by a moment exactly if any pass is.
  lemma FirstPassDecides(sector: nat, bufferInit: nat, until: nat)
    requires bufferInit % ROTATION_TIME == 0
    ensures var b := bufferInit / ROTATION_TIME;
            Passed(sector, bufferInit, until) <==> (b + ModuloDiff(sector, b) + 1) * ROTATION_TIME <= until
  {
    var b := bufferInit / ROTATION_TIME;
    var k := b + ModuloDiff(sector, b);
    assert Passes(sector, k) && bufferInit <= k * ROTATION_TIME;
    forall j: nat | Passes(sector, j) && bufferInit <= j * ROTATION_TIME
      ensures j >= k
    {
      NextPass(sector, b, j);
    }
  }

  // A read of the current track hits the buffer exactly if the sector has fully passed the head between
  // bufferInit and the boundary at which the answer could begin.
  lemma HitExactly(now: nat, lastSector: nat, bufferInit: nat, newSector: nat)
    requires SeekFrom(lastSector, newSector) == 0 && bufferInit % ROTATION_TIME == 0
    ensures BufferHit(now, lastSector, bufferInit, newSector, false) <==> Passed(newSector, bufferInit, TimeAfter(now, 0))
  {
    FirstPassDecides(newSector, bufferInit, TimeAfter(now, 0));
  }

  // One transfer when the buffer has the sector, else up to the end of the first pass after the seek.
  lemma LatencyByPasses(now: nat, lastSector: nat, bufferInit: nat, newSector: nat, writing: bool)
    requires bufferInit % ROTATION_TIME == 0
    ensures var seek, ticks := SeekFrom(lastSector, newSector), Latency(now, lastSector, bufferInit, newSector, writing);
            if !writing && seek == 0 && Passed(newSector, bufferInit, TimeAfter(now, 0)) then ticks == ROTATION_TIME
            else FirstPassEnds(newSector, now + seek, now + ticks)
  {
    if SeekFrom(lastSector, newSector) == 0 {
      HitExactly(now, lastSector, bufferInit, newSector);
    }
    if !BufferHit(now, lastSector, bufferInit, newSector, writing) {
      MissEndsAfterSector(now, lastSector, bufferInit, newSector, writing);
    }
  }

  // That boundary may lie after the request. The sector has passed by the time of the request itself exactly
  // if the request comes on a boundary, or the pass in progress is not the sector's first one.
  lemma HitIsTrueExactly(now: nat, lastSector: nat, bufferInit: nat, newSector: nat)
    requires bufferInit % ROTATION_TIME == 0 && bufferInit <= now
    requires BufferHit(now, lastSector, bufferInit, newSector, false)
    ensures Passed(newSector, bufferInit, now) <==>
      now % ROTATION_TIME == 0 || ModuloDiff(newSector, bufferInit / ROTATION_TIME) != (now - bufferInit) / ROTATION_TIME
  {
    FirstPassDecides(newSector, bufferInit, now);
  }

  // At time 1, sector 0 counts as buffered since time 0, although no pass of it has ended.
  lemma HitBeforePassEnds()
    ensures BufferHit(1, 0, 0, 0, false) && !Passed(0, 0, 1)
  {
    FirstPassDecides(0, 0, 1);
  }

  lemma LatencyBounds(now: nat, lastSector: nat, bufferInit: nat, newSector: nat, writing: bool)
    requires lastSector < NUM_SECTORS && newSector < NUM_SECTORS
    ensures var latency := Latency(now, lastSector, bufferInit, newSector, writing);
            ROTATION_TIME <= latency < (NUM_TRACKS - 1) * SEEK_TIME + (SECTORS_PER_TRACK + 1) * ROTATION_TIME
  {
  }

  // ---------------------------------------------------------------------

  class Disk {
    var lastSector: nat
    var bufferInit: nat
    var active: bool

    constructor ()
      ensures lastSector == 0 && bufferInit == 0 && !active
    {
      lastSector, bufferInit, active := 0, 0, false;
    }

    ghost predicate Valid()
      reads this
    {
      lastSector < NUM_SECTORS && bufferInit % ROTATION_TIME == 0
    }

    method TimeToSeek(now: nat, newSector: nat) returns (seek: nat, rotation: nat)
      ensures seek == SeekFrom(lastSector, newSector)
      ensures rotation < ROTATION_TIME && (now + seek + rotation) % ROTATION_TIME == 0
    {
      var newTrack := newSector / SECTORS_PER_TRACK;
      var oldTrack := lastSector / SECTORS_PER_TRACK;
      seek := Abs(newTrack - oldTrack) * SEEK_TIME;
      var over := (now + seek) % ROTATION_TIME;
      rotation := 0;
      if over > 0 {
        rotation := ROTATION_TIME - over;
      }
    }

    // A read that the track buffer can answer takes one transfer; anything else ends when the sector has
    // passed the head for the first time after the seek.
    method ComputeLatency(now: nat, newSector: nat, writing: bool) returns (ticks: nat)
      requires Valid()
      ensures ticks == Latency(now, lastSector, bufferInit, newSector, writing)
      ensures var seek := SeekFrom(lastSector, newSector);
              if !writing && seek == 0 && Passed(newSector, bufferInit, TimeAfter(now, 0)) then ticks == ROTATION_TIME
              else FirstPassEnds(newSector, now + seek, now + ticks)
    {
      var seek, rotation := TimeToSeek(now, newSector);
      SameBoundary(now + seek, rotation, Rotation(now, seek));
      var timeAfter := now + seek + rotation;
      LatencyByPasses(now, lastSector, bufferInit, newSector, writing);
      if !writing && seek == 0 && timeAfter >= bufferInit
         && (timeAfter - bufferInit) / ROTATION_TIME > ModuloDiff(newSector, bufferInit / ROTATION_TIME) {
        return ROTATION_TIME;
      }
      rotation := rotation + ModuloDiff(newSector, timeAfter / ROTATION_TIME) * ROTATION_TIME;
      return seek + rotation + ROTATION_TIME;
    }

    // ReadRequest and WriteRequest: the result is the delay of the disk interrupt.
    method Request(now: nat, sectorNumber: nat, writing: bool) returns (ticks: nat)
      requires Valid() && !active && sectorNumber < NUM_SECTORS
      modifies this
      ensures Valid() && active && lastSector == sectorNumber
      ensures ticks == Latency(now, old(lastSector), old(bufferInit), sectorNumber, writing)
      ensures var seek := SeekFrom(old(lastSector), sectorNumber);
              if !writing && seek == 0 && Passed(sectorNumber, old(bufferInit), TimeAfter(now, 0)) then ticks == ROTATION_TIME
              else FirstPassEnds(sectorNumber, now + seek, now + ticks)
      ensures bufferInit == BufferAfter(now, old(lastSector), old(bufferInit), sectorNumber)
      ensures BufferMoves(now, old(lastSector), old(bufferInit), sectorNumber, bufferInit)
      ensures old(bufferInit) <= now ==> bufferInit <= now + ticks
    {
      ticks := ComputeLatency(now, sectorNumber, writing);
      active := true;
      UpdateLast(now, sectorNumber);
    }

    method UpdateLast(now: nat, newSector: nat)
      modifies this
      ensures active == old(active) && lastSector == newSector
      ensures BufferMoves(now, old(lastSector), old(bufferInit), newSector, bufferInit)
      ensures bufferInit == BufferAfter(now, old(lastSector), old(bufferInit), newSector)
    {
      var seek, rotate := TimeToSeek(now, newSector);
      SameBoundary(now + seek, rotate, Rotation(now, seek));
      if seek != 0 {
        bufferInit := now + seek + rotate;
      }
      lastSector := newSector;
    }

    method CallBack()
      modifies this
      ensures !active && lastSector == old(lastSector) && bufferInit == old(bufferInit)
    {
      active := false;
    }
  }

  lemma SameBoundary(t: nat, r: nat, r': nat)
    requires r < ROTATION_TIME && r' < ROTATION_TIME && (t + r) % ROTATION_TIME == (t + r') % ROTATION_TIME == 0
    ensures r == r'
  {
    var m, n := (t + r) / ROTATION_TIME, (t + r') / ROTATION_TIME;
    assert t + r == m * ROTATION_TIME && t + r' == n * ROTATION_TIME;
  }

  // A request for the same track leaves the buffer as it is; any other one starts it at the first boundary after the seek.
  ghost predicate BufferMoves(now: nat, lastSector: nat, bufferInit: nat, newSector: nat, bufferInit': nat) {
    if newSector / SECTORS_PER_TRACK == lastSector / SECTORS_PER_TRACK then bufferInit' == bufferInit
    else FirstBoundary(now + SeekFrom(lastSector, newSector), bufferInit')
  }

  ghost predicate FirstBoundary(from: nat, t: nat) {
    t % ROTATION_TIME == 0 && from <= t < from + ROTATION_TIME
  }

  // The time from which on the track under the head is being buffered.
  function BufferAfter(now: nat, lastSector: nat, bufferInit: nat, newSector: nat): nat {
    var seek := SeekFrom(lastSector, newSector);
    if seek != 0 then TimeAfter(now, seek) else bufferInit
  }
}

// Requests and completions over whole runs.
module DiskRuns {
  import opened Disks
  import opened DiskTiming

  // doneAt is the time of the pending disk interrupt; arrived is history: when the head came to the track it is on.
  datatype State = State(now: nat, active: bool, doneAt: nat, lastSector: nat, bufferInit: nat, arrived: nat)

  datatype Action =
    | Pass(ticks: nat)
    | Request(sector: nat, writing: bool)
    | CallBack

  function Next(s: State, a: Action): State {
    match a
    case Pass(ticks) => s.(now := s.now + ticks)
    case Request(sector, writing) =>
      if s.active || sector >= NUM_SECTORS then s
      else State(s.now, true, s.now + Latency(s.now, s.lastSector, s.bufferInit, sector, writing), sector,
                 BufferAfter(s.now, s.lastSector, s.bufferInit, sector),
                 if sector / SECTORS_PER_TRACK == s.lastSector / SECTORS_PER_TRACK then s.arrived else s.now + SeekFrom(s.lastSector, sector))
    case CallBack => if s.active && s.now >= s.doneAt then s.(active := false) else s
  }

  function Run(acts: seq<Action>): State {
    if acts == [] then State(0, false, 0, 0, 0, 0) else Next(Run(acts[..|acts| - 1]), acts[|acts| - 1])
  }

  ghost predicate Inv(s: State) {
    && s.lastSector < NUM_SECTORS
    && FirstBoundary(s.arrived, s.bufferInit)
    && (if s.active then s.bufferInit <= s.doneAt else s.bufferInit <= s.now)
  }

  // The buffer never starts later than the request that filled it ends; so whenever the disk is idle,
  // bufferInit is past, and HitExactly applies to the next request.
  lemma {:induction false} EveryRun(acts: seq<Action>)
    ensures Inv(Run(acts))
  {
    if acts != [] {
      var s, a := Run(acts[..|acts| - 1]), acts[|acts| - 1];
      EveryRun(acts[..|acts| - 1]);
      if a.Request? && !s.active && a.sector < NUM_SECTORS {
        BufferBeforeEnd(s, a.sector, a.writing);
      }
    }
  }

  lemma BufferBeforeEnd(s: State, sector: nat, writing: bool)
    requires Inv(s) && !s.active
    ensures var b := BufferAfter(s.now, s.lastSector, s.bufferInit, sector);
            BufferMoves(s.now, s.lastSector, s.bufferInit, sector, b) && b <= s.now + Latency(s.now, s.lastSector, s.bufferInit, sector, writing)
  {
  }

  lemma BufferIsPastWhenIdle(acts: seq<Action>)
    ensures var s := Run(acts); !s.active ==> s.bufferInit <= s.now && s.bufferInit % ROTATION_TIME == 0
  {
    EveryRun(acts);
  }

  // In every run, a read on the current track is answered from the buffer exactly if the sector has been
  // read since the buffer was begun, and then it has been by the time the answer is complete.
  lemma ReadsHitExactly(acts: seq<Action>, sector: nat)
    ensures var s := Run(acts);
            !s.active && SeekFrom(s.lastSector, sector) == 0 ==>
              && (BufferHit(s.now, s.lastSector, s.bufferInit, sector, false) <==> Passed(sector, s.bufferInit, TimeAfter(s.now, 0)))
              && (BufferHit(s.now, s.lastSector, s.bufferInit, sector, false) ==>
                    TimeAfter(s.now, 0) <= s.now + Latency(s.now, s.lastSector, s.bufferInit, sector, false) == s.now + ROTATION_TIME)
  {
    EveryRun(acts);
    var s := Run(acts);
    if !s.active && SeekFrom(s.lastSector, sector) == 0 {
      HitExactly(s.now, s.lastSector, s.bufferInit, sector);
    }
  }

  // Passes begin on boundaries, so those since the head's arrival are those since the buffer was begun.
  lemma SameFromBoundary(sector: nat, from: nat, t: nat, until: nat)
    requires FirstBoundary(from, t)
    ensures Passed(sector, from, until) <==> Passed(sector, t, until)
  {
    forall k: nat | from <= k * ROTATION_TIME
      ensures t <= k * ROTATION_TIME
    {
      NotBetween(from, t, k);
    }
    if Passed(sector, from, until) {
      var k: nat :| Passes(sector, k) && from <= k * ROTATION_TIME && (k + 1) * ROTATION_TIME <= until;
      assert t <= k * ROTATION_TIME;
    }
    if Passed(sector, t, until) {
      var k: nat :| Passes(sector, k) && t <= k * ROTATION_TIME && (k + 1) * ROTATION_TIME <= until;
      assert from <= k * ROTATION_TIME;
    }
  }

  lemma NotBetween(from: nat, t: nat, k: nat)
    requires FirstBoundary(from, t) && from <= k * ROTATION_TIME
    ensures t <= k * ROTATION_TIME
  {
    var m := t / ROTATION_TIME;
    assert t == m * ROTATION_TIME;
  }

  // In every run, a read on the current track takes one transfer exactly if the sector has fully passed the head
  // since the head came to the track; otherwise it ends after the next pass.
  lemma ReadsSinceArrival(acts: seq<Action>, sector: nat)
    requires sector < NUM_SECTORS
    ensures var s := Run(acts);
            !s.active && sector / SECTORS_PER_TRACK == s.lastSector / SECTORS_PER_TRACK ==>
              var end := Next(s, Request(sector, false)).doneAt;
              if Passed(sector, s.arrived, TimeAfter(s.now, 0)) then end == s.now + ROTATION_TIME else FirstPassEnds(sector, s.now, end)
  {
    EveryRun(acts);
    var s := Run(acts);
    if !s.active && sector / SECTORS_PER_TRACK == s.lastSector / SECTORS_PER_TRACK {
      SeekIsDistance(s.lastSector, sector, sector);
      LatencyByPasses(s.now, s.lastSector, s.bufferInit, sector, false);
      SameFromBoundary(sector, s.arrived, s.bufferInit, TimeAfter(s.now, 0));
    }
  }

  // The head came to its track with the last request that changed the track: when its seek was over.
  ghost predicate LastChange(acts: seq<Action>, n: nat) {
    && n < |acts| && acts[n].Request?
    && var s := Run(acts[..n]);
       && !s.active && acts[n].sector < NUM_SECTORS && acts[n].sector / SECTORS_PER_TRACK != s.lastSector / SECTORS_PER_TRACK
       && Run(acts).arrived == s.now + SeekFrom(s.lastSector, acts[n].sector)
       && Run(acts).lastSector / SECTORS_PER_TRACK == acts[n].sector / SECTORS_PER_TRACK
  }

  lemma {:induction false} ArrivedByRequest(acts: seq<Action>)
    ensures (Run(acts).arrived == 0 && Run(acts).lastSector / SECTORS_PER_TRACK == 0) || exists n: nat :: LastChange(acts, n)
  {
    if acts != [] {
      var before, a := acts[..|acts| - 1], acts[|acts| - 1];
      var s := Run(before);
      ArrivedByRequest(before);
      if a.Request? && !s.active && a.sector < NUM_SECTORS && a.sector / SECTORS_PER_TRACK != s.lastSector / SECTORS_PER_TRACK {
        assert LastChange(acts, |acts| - 1);
      } else if n: nat :| LastChange(before, n) {
        assert before[..n] == acts[..n];
        assert LastChange(acts, n);
      }
    }
  }

  // In every run, a read that hits is of a sector that has passed the head by the time of the request exactly
  // under the condition of HitIsTrueExactly.
  lemma HitsAreTrueExactly(acts: seq<Action>, sector: nat)
    ensures var s := Run(acts);
            !s.active && BufferHit(s.now, s.lastSector, s.bufferInit, sector, false) ==>
              s.bufferInit <= s.now &&
              (Passed(sector, s.bufferInit, s.now) <==>
                 s.now % ROTATION_TIME == 0 || ModuloDiff(sector, s.bufferInit / ROTATION_TIME) != (s.now - s.bufferInit) / ROTATION_TIME)
  {
    EveryRun(acts);
    var s := Run(acts);
    if !s.active && BufferHit(s.now, s.lastSector, s.bufferInit, sector, false) {
      HitIsTrueExactly(s.now, s.lastSector, s.bufferInit, sector);
    }
  }

  // One tick after the machine is started, the condition fails.
  lemma EarlyHitIsReached()
    ensures var s := Run([Pass(1)]);
            !s.active && BufferHit(s.now, s.lastSector, s.bufferInit, 0, false) && !Passed(0, s.bufferInit, s.now)
  {
    assert [Pass(1)][..0] == [];
    assert Run([Pass(1)]) == State(1, false, 0, 0, 0, 0);
    HitBeforePassEnds();
  }
}
