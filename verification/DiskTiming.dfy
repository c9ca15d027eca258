/** How long a disk request takes: seeking, waiting for the sector to come round, transferring it, and the
    buffer that collects the current track while it passes. */
module DiskTiming {
  import opened DiskGeometry

  const ROTATION_TIME := 500
  const SEEK_TIME := 500

  type Sector = s: nat | s < NUM_SECTORS

  /** The previous request's sector, and the time from which on the track buffer has been filling. */
  datatype Head = Head(lastSector: Sector, bufferInit: nat)

  const NEW_HEAD := Head(0, 0)

  function Track(s: Sector): nat { s / SECTORS_PER_TRACK }

  /** At `arrival` the head has come to the sector's track: each track crossed, in either direction, takes one seek time. */
  predicate ArrivesAt(h: Head, newSector: Sector, now: nat, arrival: nat) {
    var newTrack, oldTrack := Track(newSector), Track(h.lastSector);
    if newTrack >= oldTrack then arrival + SEEK_TIME * oldTrack == now + SEEK_TIME * newTrack
    else arrival + SEEK_TIME * newTrack == now + SEEK_TIME * oldTrack
  }

  /** The time to reach the sector's track, and from then to the next sector boundary. */
  function TimeToSeek(h: Head, newSector: Sector, now: nat): (r: (nat, nat))
    ensures r.0 <= (NUM_TRACKS - 1) * SEEK_TIME && r.1 < ROTATION_TIME
    ensures (now + r.0 + r.1) % ROTATION_TIME == 0
    ensures r.0 == 0 <==> Track(newSector) == Track(h.lastSector)
    ensures ArrivesAt(h, newSector, now, now + r.0)
  {
    var newTrack, oldTrack := Track(newSector), Track(h.lastSector);
    var seek := (if newTrack < oldTrack then oldTrack - newTrack else newTrack - oldTrack) * SEEK_TIME;
    var over := (now + seek) % ROTATION_TIME;
    (seek, if over > 0 then ROTATION_TIME - over else 0)
  }

  predicate TurnsTo(from: nat, turns: nat, to: nat) { (from + turns) % SECTORS_PER_TRACK == to % SECTORS_PER_TRACK }

  /** The number of sectors from `from` to `to`, going round. */
  function ModuloDiff(to: nat, from: nat): (d: nat)
    ensures d < SECTORS_PER_TRACK && TurnsTo(from, d, to)
  {
    var toOffset, fromOffset := to % SECTORS_PER_TRACK, from % SECTORS_PER_TRACK;
    ((toOffset - fromOffset) + SECTORS_PER_TRACK) % SECTORS_PER_TRACK
  }

  lemma DiffIsLeast(to: nat, from: nat, turns: nat)
    requires TurnsTo(from, turns, to)
    ensures ModuloDiff(to, from) <= turns
  {
    var d := ModuloDiff(to, from);
    assert TurnsTo(from, d, to);
    var p, q := (from + turns) / SECTORS_PER_TRACK, (from + d) / SECTORS_PER_TRACK;
    assert from + turns - (from + d) == (p - q) * SECTORS_PER_TRACK;
  }

  predicate BufferHit(h: Head, newSector: Sector, writing: bool, now: nat) {
    var (seek, rotation) := TimeToSeek(h, newSector, now);
    var timeAfter := now + seek + rotation;
    // the division truncates; before the buffer starts its quotient is not positive
    !writing && seek == 0 && timeAfter >= h.bufferInit &&
    (timeAfter - h.bufferInit) / ROTATION_TIME > ModuloDiff(newSector, h.bufferInit / ROTATION_TIME)
  }

  function ComputeLatency(h: Head, newSector: Sector, writing: bool, now: nat): nat {
    var (seek, rotation) := TimeToSeek(h, newSector, now);
    if BufferHit(h, newSector, writing, now) then ROTATION_TIME
    else seek + rotation + ModuloDiff(newSector, (now + seek + rotation) / ROTATION_TIME) * ROTATION_TIME + ROTATION_TIME
  }

  function UpdateLast(h: Head, newSector: Sector, now: nat): Head {
    var (seek, rotate) := TimeToSeek(h, newSector, now);
    Head(newSector, if seek != 0 then now + seek + rotate else h.bufferInit)
  }

  /** At time `end` sector `s` has just passed under the head, from its first to its last byte. */
  predicate JustPassed(s: Sector, end: int) {
    end >= ROTATION_TIME && end % ROTATION_TIME == 0 && (end / ROTATION_TIME - 1) % SECTORS_PER_TRACK == s % SECTORS_PER_TRACK
  }

  lemma PassedAfter(s: Sector, boundary: nat, diff: nat)
    requires boundary % ROTATION_TIME == 0 && diff == ModuloDiff(s, boundary / ROTATION_TIME)
    ensures JustPassed(s, boundary + diff * ROTATION_TIME + ROTATION_TIME)
    ensures forall end :: JustPassed(s, end) && end - ROTATION_TIME >= boundary ==>
      end >= boundary + diff * ROTATION_TIME + ROTATION_TIME
  {
    var turn := boundary / ROTATION_TIME;
    var end := boundary + diff * ROTATION_TIME + ROTATION_TIME;
    assert end == (turn + diff + 1) * ROTATION_TIME;
    forall end' | JustPassed(s, end') && end' - ROTATION_TIME >= boundary ensures end' >= end {
      var e: nat := end' / ROTATION_TIME - 1 - turn;
      DiffIsLeast(s, turn, e);
    }
  }

  lemma PassedAtBoundary(s: Sector, end: int)
    requires JustPassed(s, end)
    ensures end >= 0 && end % ROTATION_TIME == 0
  {
  }

  lemma FirstBoundary(start: nat, boundary: nat, now: nat)
    requires start % ROTATION_TIME == 0 && boundary % ROTATION_TIME == 0 && boundary < now + ROTATION_TIME && start >= now
    ensures start >= boundary
  {
  }

  /** `completion` is the first moment at which the sector has passed from its first to its last byte since `arrival`. */
  ghost predicate FirstPassSince(s: Sector, arrival: nat, completion: nat) {
    && JustPassed(s, completion) && completion - ROTATION_TIME >= arrival
    && forall end :: JustPassed(s, end) && end - ROTATION_TIME >= arrival ==> completion <= end
  }

  lemma OneArrival(h: Head, s: Sector, now: nat, arrival: nat)
    requires ArrivesAt(h, s, now, arrival)
    ensures arrival == now + TimeToSeek(h, s, now).0
  {
  }

  /** Without a hit, the request completes at the first moment at which the sector has passed as a whole since the head
      arrived at its track. */
  lemma CompletesAtFirstPass(h: Head, s: Sector, writing: bool, now: nat, arrival: nat)
    requires !BufferHit(h, s, writing, now) && ArrivesAt(h, s, now, arrival)
    ensures FirstPassSince(s, arrival, now + ComputeLatency(h, s, writing, now))
  {
    hide JustPassed, ModuloDiff, TimeToSeek, BufferHit, TurnsTo, ArrivesAt;
    OneArrival(h, s, now, arrival);
    var (seek, rotation) := TimeToSeek(h, s, now);
    var boundary := now + seek + rotation;
    PassedAfter(s, boundary, ModuloDiff(s, boundary / ROTATION_TIME));
    forall end | JustPassed(s, end) && end - ROTATION_TIME >= arrival ensures end - ROTATION_TIME >= boundary {
      PassedAtBoundary(s, end);
      FirstBoundary(end - ROTATION_TIME, boundary, arrival);
    }
  }

  /** The quotient tells whether `diff` sectors and one more fit between two sector boundaries. */
  lemma SectorsBetween(from: nat, to: nat, diff: nat)
    requires from % ROTATION_TIME == 0 && to % ROTATION_TIME == 0
    ensures to >= from && (to - from) / ROTATION_TIME > diff <==> from + diff * ROTATION_TIME + ROTATION_TIME <= to
  {
  }

  lemma LastBoundary(end: nat, boundary: nat, now: nat)
    requires end % ROTATION_TIME == 0 && boundary % ROTATION_TIME == 0 && now <= boundary && end < now + ROTATION_TIME
    ensures end <= boundary
  {
  }

  /** The test for a hit, in terms of when the sector has first passed since the buffer started. */
  lemma HitMeansFirstPass(h: Head, s: Sector, writing: bool, now: nat)
    requires h.bufferInit % ROTATION_TIME == 0
    ensures BufferHit(h, s, writing, now) <==>
      && !writing && Track(s) == Track(h.lastSector)
      && h.bufferInit + ModuloDiff(s, h.bufferInit / ROTATION_TIME) * ROTATION_TIME + ROTATION_TIME
         <= now + TimeToSeek(h, s, now).1
  {
    var (seek, rotation) := TimeToSeek(h, s, now);
    var diff := ModuloDiff(s, h.bufferInit / ROTATION_TIME);
    hide TimeToSeek, ModuloDiff, Track, TurnsTo;
    if seek == 0 {
      SectorsBetween(h.bufferInit, now + rotation, diff);
    }
  }

  /** A read hits the buffer exactly if its track is the current one and the sector has passed completely since
      the buffer started and by the next sector boundary; the transfer then takes one sector's time. */
  lemma HitMeansPassed(h: Head, s: Sector, writing: bool, now: nat)
    requires h.bufferInit % ROTATION_TIME == 0
    ensures BufferHit(h, s, writing, now) <==>
      && !writing && Track(s) == Track(h.lastSector)
      && exists end :: JustPassed(s, end) && h.bufferInit <= end - ROTATION_TIME && end < now + ROTATION_TIME
    ensures BufferHit(h, s, writing, now) ==> ComputeLatency(h, s, writing, now) == ROTATION_TIME
  {
    hide BufferHit, JustPassed, ModuloDiff, TimeToSeek, Track, TurnsTo;
    var (seek, rotation) := TimeToSeek(h, s, now);
    var diff := ModuloDiff(s, h.bufferInit / ROTATION_TIME);
    var first := h.bufferInit + diff * ROTATION_TIME + ROTATION_TIME;
    HitMeansFirstPass(h, s, writing, now);
    PassedAfter(s, h.bufferInit, diff);
    assert JustPassed(s, first);
    if !writing && seek == 0 {
      if end :| JustPassed(s, end) && h.bufferInit <= end - ROTATION_TIME && end < now + ROTATION_TIME {
        PassedAtBoundary(s, end);
        LastBoundary(end, now + rotation, now);
        assert first <= end;
      }
    }
  }

  /** Every request takes between one sector's time and one tick less than a full sweep and a full turn. */
  lemma LatencyBounds(h: Head, s: Sector, writing: bool, now: nat)
    ensures ROTATION_TIME <= ComputeLatency(h, s, writing, now) <= 31999
  {
  }

  /** Both bounds are reached. */
  lemma LatencyBoundsReached()
    ensures ComputeLatency(NEW_HEAD, 1023, true, 1) == 31999
    ensures ComputeLatency(NEW_HEAD, 0, true, 0) == ROTATION_TIME
  {
  }

  /** Seeking towards a lower track takes as long as towards a higher one: from the last track back to the first. */
  lemma SeekBack()
    ensures ComputeLatency(Head(1023, 0), 1, true, 32000) == 17000
    ensures ComputeLatency(Head(1, 0), 1023, true, 32000) == 16000
  {
  }

  datatype Request = Request(sector: Sector, writing: bool, at: nat)

  /** The head after the first `n` requests. */
  function HeadAfter(requests: seq<Request>, n: nat): Head
    requires n <= |requests|
  {
    if n == 0 then NEW_HEAD
    else UpdateLast(HeadAfter(requests, n - 1), requests[n - 1].sector, requests[n - 1].at)
  }

  function Latency(requests: seq<Request>, n: nat): nat
    requires n < |requests|
  {
    ComputeLatency(HeadAfter(requests, n), requests[n].sector, requests[n].writing, requests[n].at)
  }

  /** A request is made only after the one before it has completed. */
  ghost predicate OneAtATime(requests: seq<Request>) {
    forall n :: 0 <= n < |requests| - 1 ==> requests[n].at + Latency(requests, n) <= requests[n + 1].at
  }

  /** The request after this one finds the buffer started, on a sector boundary. */
  lemma BufferStarted(h: Head, s: Sector, writing: bool, now: nat)
    requires h.bufferInit % ROTATION_TIME == 0 && h.bufferInit <= now
    ensures UpdateLast(h, s, now).bufferInit % ROTATION_TIME == 0
    ensures UpdateLast(h, s, now).bufferInit <= now + ComputeLatency(h, s, writing, now)
  {
    hide ModuloDiff, TurnsTo, Track, TimeToSeek;
    var (seek, rotation) := TimeToSeek(h, s, now);
    if BufferHit(h, s, writing, now) {
      assert seek == 0;
    }
  }

  /** Over all runs: the buffer starts on a sector boundary, never in the future when a request is made; and each
      request takes between 500 and 31999 ticks. */
  lemma {:induction false} BufferNeverInFuture(requests: seq<Request>, n: nat)
    requires OneAtATime(requests) && n < |requests|
    ensures HeadAfter(requests, n).bufferInit % ROTATION_TIME == 0
    ensures HeadAfter(requests, n).bufferInit <= requests[n].at
    ensures ROTATION_TIME <= Latency(requests, n) <= 31999
  {
    hide ComputeLatency, UpdateLast, TimeToSeek, ModuloDiff;
    LatencyBounds(HeadAfter(requests, n), requests[n].sector, requests[n].writing, requests[n].at);
    if n > 0 {
      var r := requests[n - 1];
      BufferNeverInFuture(requests, n - 1);
      assert r.at + Latency(requests, n - 1) <= requests[n - 1 + 1].at;
      BufferStarted(HeadAfter(requests, n - 1), r.sector, r.writing, r.at);
    }
  }

  /** A seek empties the buffer, and it fills again from the first sector boundary after the head arrived; on the same
      track it goes on as it was. */
  lemma UpdatedBuffer(h: Head, s: Sector, now: nat, arrival: nat)
    requires ArrivesAt(h, s, now, arrival)
    ensures var h' := UpdateLast(h, s, now);
      && h'.lastSector == s && (Track(s) == Track(h.lastSector) ==> h'.bufferInit == h.bufferInit)
      && (Track(s) != Track(h.lastSector) ==>
            now < arrival <= h'.bufferInit < arrival + ROTATION_TIME && h'.bufferInit % ROTATION_TIME == 0)
  {
    hide TimeToSeek, ArrivesAt;
    OneArrival(h, s, now, arrival);
  }

  /** The buffer holds the current track: since it started, every request has been on that track. */
  lemma {:induction false} BufferIsOfCurrentTrack(requests: seq<Request>, n: nat, k: nat)
    requires OneAtATime(requests) && k < n <= |requests|
    requires HeadAfter(requests, n).bufferInit <= requests[k].at
    ensures Track(requests[k].sector) == Track(HeadAfter(requests, n).lastSector)
  {
    hide OneAtATime, Latency;
    RequestsInOrder(requests, k, n - 1);
    var r, h := requests[n - 1], HeadAfter(requests, n - 1);
    assert HeadAfter(requests, n) == UpdateLast(h, r.sector, r.at);
    hide *;
    UpdatedBuffer(h, r.sector, r.at, r.at + TimeToSeek(h, r.sector, r.at).0);
    if k < n - 1 && Track(r.sector) == Track(h.lastSector) {
      BufferIsOfCurrentTrack(requests, n - 1, k);
    }
  }

  lemma {:induction false} RequestsInOrder(requests: seq<Request>, k: nat, n: nat)
    requires OneAtATime(requests) && k <= n < |requests|
    ensures requests[k].at <= requests[n].at
  {
    if k < n {
      RequestsInOrder(requests, k, n - 1);
      assert requests[n - 1].at + Latency(requests, n - 1) <= requests[n - 1 + 1].at;
    }
  }

  /** The device: one request at a time, answered by the number of ticks until its interrupt. */
  class Disk {
    var lastSector: Sector
    var bufferInit: nat
    var active: bool

    ghost function Position(): Head
      reads this
    {
      Head(lastSector, bufferInit)
    }

    constructor ()
      ensures Position() == NEW_HEAD && !active
    {
      lastSector, bufferInit, active := 0, 0, false;
    }

    /** ReadRequest and WriteRequest, as far as time is concerned. */
    method StartRequest(sector: Sector, writing: bool, totalTicks: nat) returns (ticks: nat)
      requires !active
      modifies this
      ensures active && ticks == ComputeLatency(old(Position()), sector, writing, totalTicks)
      ensures Position() == UpdateLast(old(Position()), sector, totalTicks) && lastSector == sector
      ensures BufferHit(old(Position()), sector, writing, totalTicks) ==> ticks == ROTATION_TIME
      ensures !BufferHit(old(Position()), sector, writing, totalTicks) ==>
        forall arrival: nat :: ArrivesAt(old(Position()), sector, totalTicks, arrival) ==>
          FirstPassSince(sector, arrival, totalTicks + ticks)
      ensures ROTATION_TIME <= ticks <= 31999
    {
      LatencyBounds(Position(), sector, writing, totalTicks);
      ghost var before := Position();
      forall arrival: nat | ArrivesAt(before, sector, totalTicks, arrival) && !BufferHit(before, sector, writing, totalTicks)
        ensures FirstPassSince(sector, arrival, totalTicks + ComputeLatency(before, sector, writing, totalTicks))
      {
        CompletesAtFirstPass(before, sector, writing, totalTicks, arrival);
      }
      ticks := ComputeLatency(Head(lastSector, bufferInit), sector, writing, totalTicks);
      active := true;
      var (seek, rotate) := TimeToSeek(Head(lastSector, bufferInit), sector, totalTicks);
      if seek != 0 {
        bufferInit := totalTicks + seek + rotate;
      }
      lastSector := sector;
    }

    method CallBack()
      modifies this`active
      ensures !active
    {
      active := false;
    }
  }
}
