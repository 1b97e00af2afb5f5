/**
 Concrete runs in which the sender breaks a promise: a line counted twice, and events left in the
 ring by the final drain. Events are plain numbers and a body is as long as its batch.
 */
module Incidents {
  import opened Bytes
  import opened Options
  import opened SpillFile
  import opened Delivery
  import opened Sender
  import RateLimit

  function Dashes(n: nat): (r: bytes)
    ensures |r| == n && forall i | 0 <= i < n :: r[i] == MINUS
  {
    seq(n, _ => MINUS)
  }

  function Tally(): Codec<int> {
    Codec(
      (evs: seq<int>) => Dashes(|evs| + 1),
      (line: bytes) => if line == [] then 0 else |line| - 1,
      (k: nat, e: int) => Some(e),
      (e: int) => false)
  }

  ghost function Any(): int -> bool {
    e => true
  }

  lemma TallyOk()
    ensures CodecOk(Tally(), Any()) && KeepsAll(Tally())
  {
    forall evs: seq<int> ensures OneLine(Tally().body(evs)) && Tally().count(Tally().body(evs)) == |evs| {
      assert LF !in Dashes(|evs| + 1);
    }
  }

  // ------------------------------------------------------- a line counted twice

  /** Every POST is accepted; the disk works for the first four looks and then fails. */
  function FailingDisk(i: nat): World {
    World(0, 0, false, 0, false, i <= 3, true, Reply(200, RateLimit.Absent, false))
  }

  /** Nothing was done yet; one event is on disk. */
  ghost predicate OneSpilled(s: Sender<int>)
    reads s, s.clock, s.poster, s.poster.limiter, s.store, s.inbox, s.inbox.ring, s.inbox.ring.slots
  {
    && s.Valid() && s.clock.world == FailingDisk && s.clock.looks == s.poster.limiter.until == 0 && s.offline
    && s.poster.maxBatchBytes == 0 && s.inbox.arrivals == [] && s.store.replays == NoRewrite
    && s.store.file != [] && Total(s.store.lines0, s.codec.count) == Total(Lines(s.store.file), s.codec.count) == 1
  }

  method SpillOne() returns (s: Sender<int>)
    ensures fresh(s) && fresh(s.inbox) && fresh(s.inbox.ring) && fresh(s.inbox.ring.slots) && fresh(s.clock)
    ensures fresh(s.poster) && fresh(s.poster.limiter) && fresh(s.store) && OneSpilled(s)
  {
    var line := Dashes(2);
    assert OneLine(line);
    LinesOfRecord(line);
    TotalOne(line, Tally().count);
    TallyOk();
    s := NewSender(Tally(), Any(), true, 1, 0, 0, 8, FailingDisk, [], line + [LF]);
  }

  /** One drain of a spill file with one event in it. The replay delivers the event, the rewrite
      fails, and the books show two events where there was one. */
  method CountsALineTwice() returns (s: Sender<int>)
    ensures fresh(s) && s.Valid() && LostRewrite(s.store.replays, s.clock.world)
    ensures |s.inbox.ring.pushed| == 0 && Total(s.store.lines0, s.codec.count) == 1
    ensures s.inbox.ring.size + s.inbox.ring.dropped + s.vetoed + s.sent + s.failed + s.store.OnDisk() == 2
  {
    s := SpillOne();
    DrainSpilled(s);
  }

  method DrainSpilled(s: Sender<int>)
    requires OneSpilled(s)
    modifies s, s.clock, s.poster, s.poster.limiter, s.store, s.inbox, s.inbox.ring, s.inbox.ring.slots
    ensures s.Valid() && LostRewrite(s.store.replays, s.clock.world)
    ensures |s.inbox.ring.pushed| == 0 && Total(s.store.lines0, s.codec.count) == 1
    ensures s.inbox.ring.size + s.inbox.ring.dropped + s.vetoed + s.sent + s.failed + s.store.OnDisk() == 2
  {
    ghost var _, _, _, _ := s.Drain(false);
    s.inbox.Supply();
  }

  // --------------------------------------------- events left by the final drain

  /** The server throttles. At look eleven the program is told to stop, with time to spare; at look
      thirteen the hold is over. */
  function LapsingHold(i: nat): World {
    World(if i < 13 then 0 else HOLD, 0, i >= 11, HOLD + 1, false, true, true, Reply(429, RateLimit.Absent, false))
  }

  lemma ServerThrottles()
    ensures JamUntil(LapsingHold, 11) && StaysExpired(LapsingHold) && HOLD > 0
    ensures forall i | 11 <= i :: !Expired(LapsingHold(i))
  {
    HoldPositive();
  }

  /** Nothing was done yet; two events are about to be captured. */
  ghost predicate TwoToCome(s: Sender<int>)
    reads s, s.clock, s.poster, s.poster.limiter, s.store, s.inbox, s.inbox.ring, s.inbox.ring.slots
  {
    && s.Valid() && s.clock.world == LapsingHold && s.clock.looks == s.poster.limiter.until == 0
    && s.maxBatch == 1 && s.Waiting() == 2 && s.Jams(11)
  }

  method CaptureTwo() returns (s: Sender<int>)
    ensures fresh(s) && fresh(s.inbox) && fresh(s.inbox.ring) && fresh(s.inbox.ring.slots) && fresh(s.clock)
    ensures fresh(s.poster) && fresh(s.poster.limiter) && fresh(s.store) && TwoToCome(s)
  {
    TallyOk();
    ServerThrottles();
    s := NewSender(Tally(), Any(), false, 1, 0, 0, 8, LapsingHold, [[7, 8]], []);
  }

  /** Both land in the ring before the first drain takes a batch of one. It is throttled and lost,
      since there is no path, and the other event stays in the ring. */
  method ThrottledOnce() returns (s: Sender<int>)
    ensures fresh(s) && fresh(s.inbox) && fresh(s.inbox.ring) && fresh(s.inbox.ring.slots) && fresh(s.clock)
    ensures fresh(s.poster) && fresh(s.poster.limiter) && fresh(s.store)
    ensures s.Valid() && s.clock.world == LapsingHold && s.clock.looks == 11 && s.poster.limiter.until == HOLD
    ensures s.inbox.ring.size == 1
  {
    s := CaptureTwo();
    ghost var _, _, _, _ := s.Drain(false);
  }

  /** Then the program stops. The final drain finds the hold on at its first look and off at its
      last, and leaves the event in the ring, to be freed uncounted. */
  method LeavesAnEvent() returns (s: Sender<int>)
    ensures fresh(s) && s.Valid() && s.inbox.ring.size == 1
    ensures s.clock.world == LapsingHold && s.clock.looks == 14
  {
    s := ThrottledOnce();
    ServerThrottles();
    ghost var _, startsHeld, leftover, at := s.Drain(true);
  }
}
