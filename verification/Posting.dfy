/** POSTs, the server's hold, and the looks at the world that decide them. */
module Posting {
  import opened Bytes
  import opened Options
  import opened Delivery
  import RateLimit

  /** The world, looked at once at a time. */
  class Clock {
    const world: nat -> World
    var looks: nat

    constructor (world: nat -> World)
      ensures this.world == world && looks == 0
    {
      this.world := world;
      looks := 0;
    }

    method Look() returns (w: World)
      modifies this
      ensures w == world(old(looks)) && looks == old(looks) + 1
    {
      w := world(looks);
      looks := looks + 1;
    }

    method ShutdownExpired() returns (yes: bool)
      modifies this
      ensures yes == Expired(world(old(looks))) && looks == old(looks) + 1
    {
      var w := Look();
      yes := Expired(w);
    }

    /** The last look at the disk found it failing. */
    ghost predicate DiskFailed()
      reads this
    {
      looks > 0 && !world(looks - 1).disk
    }
  }

  /** The transport's side of the sender. */
  class Poster {
    const clock: Clock
    const limiter: RateLimit.Limiter
    const maxBatchBytes: int
    const maxRetries: int
    ghost const count: bytes -> nat

    var retries: nat

    /** What this drain did, and its watch over the hold. */
    ghost var log: Log
    ghost var watch: Watch

    /** Over all drains: the bodies that got a 2xx, the events in those of earlier drains, and the
        looks at which a received reply first asked for a hold, or accepted a body. */
    ghost var accepted: set<bytes>
    ghost var acceptedBefore: nat
    ghost var heldBy: Option<nat>
    ghost var acceptedBy: Option<nat>

    ghost predicate Valid()
      reads this, limiter
    {
      && watch == WatchOf(log) && PostsWithin(log, maxBatchBytes)
      && Grounded(limiter.until, log, Accepts(), heldBy, acceptedBy, clock.world)
    }

    /** The events in all bodies that got a 2xx. */
    ghost function Accepts(): nat
      reads this
    {
      acceptedBefore + AcceptedEvents(log, count)
    }

    /** A POST cycle makes this many attempts at most. */
    function Attempts(): nat {
      if maxRetries >= 0 then maxRetries + 1 else 1
    }

    predicate TooBig(n: nat) {
      maxBatchBytes > 0 && n > maxBatchBytes
    }

    constructor (clock: Clock, maxBatchBytes: int, maxRetries: int, ghost count: bytes -> nat)
      ensures Valid() && fresh(limiter) && limiter.until == 0 && log == Start && watch == Idle
      ensures this.clock == clock && this.maxBatchBytes == maxBatchBytes && this.maxRetries == maxRetries
      ensures this.count == count && accepted == {} && Accepts() == 0 && heldBy == None && acceptedBy == None
    {
      this.clock, this.maxBatchBytes, this.maxRetries, this.count := clock, maxBatchBytes, maxRetries, count;
      limiter := new RateLimit.Limiter();
      retries := 0;
      log, watch, accepted, acceptedBefore, heldBy, acceptedBy := Start, Idle, {}, 0, None, None;
    }

    /** From here on every POST is accepted and no hold is on. */
    ghost predicate Smooth()
      reads clock, limiter
    {
      SmoothFrom(clock.world, clock.looks, limiter.until)
    }

    /** A drain starts with a clean log. */
    ghost method Restart()
      requires Valid()
      modifies this
      ensures Valid() && log == Start && watch == Idle && Accepts() == old(Accepts())
      ensures accepted == old(accepted) && heldBy == old(heldBy) && acceptedBy == old(acceptedBy)
      ensures retries == old(retries) && acceptedBefore == old(Accepts())
    {
      acceptedBefore := Accepts();
      log, watch := Start, Idle;
    }

    /** Ask whether the hold is on. */
    method Held() returns (yes: bool)
      requires Valid()
      modifies clock, this`log, this`watch
      ensures Valid() && clock.looks == old(clock.looks) + 1
      ensures yes == limiter.Blocked(clock.world(old(clock.looks)).now)
      ensures log == Then(old(log), Checked(yes)) && watch == Observe(old(watch), Checked(yes))
      ensures Accepts() == old(Accepts()) && PostCount(log) == old(PostCount(log))
      ensures old(Smooth()) ==> Smooth() && !yes
    {
      assert Smooth() ==> SmoothAt(clock.world, clock.looks, limiter.until);
      var w := clock.Look();
      yes := limiter.until > w.now;
      log := Then(log, Checked(yes));
      watch := Observe(watch, Checked(yes));
    }

    /** Fold the backpressure of the reply received at the last look into the hold. */
    method NoteReply(r: Reply, ghost at: nat) returns (ghost arms: bool)
      requires clock.looks == at + 1 && r == clock.world(at).reply
      modifies clock, limiter
      ensures clock.looks == at + 1 + if Noted(r) then 1 else 0
      ensures arms == AsksHold(clock.world, at)
      ensures limiter.until == if arms then HeldUntil(clock.world, at) else old(limiter.until)
    {
      arms := false;
      if r.status == 429 || r.status == 503 {
        var at := clock.Look();
        var _ := limiter.NoteResponse(r.status, r.retryAfter, at.now, at.wall);
        arms := RateLimit.Window(r.status, r.retryAfter, at.wall) >= 0;
      } else if Delivered(r.status) && r.quota {
        var at := clock.Look();
        limiter.Arm(RateLimit.DEFAULT_MS, at.now);
        arms := true;
      }
    }

    /** POST a body and let the answer arm the hold. No POST is made without a transport or
        without time left; such an attempt reads as a failure. */
    method PostAndNote(body: bytes) returns (status: int, ghost posted: bool, ghost arms: bool)
      requires Valid() && !TooBig(|body|)
      modifies clock, this`log, this`watch, this`accepted, this`heldBy, this`acceptedBy, limiter
      ensures Valid()
      ensures posted == CanPost(clock.world(old(clock.looks)))
      ensures status == if posted then clock.world(old(clock.looks)).reply.status else -1
      ensures arms == (posted && AsksHold(clock.world, old(clock.looks)))
      ensures log == if posted then Then(old(log), Posted(body, status, arms)) else old(log)
      ensures watch == if posted then Observe(old(watch), Posted(body, status, arms)) else old(watch)
      ensures Accepts() == old(Accepts()) + if Delivered(status) then count(body) else 0
      ensures PostCount(log) == old(PostCount(log)) + if posted then 1 else 0
      ensures accepted == old(accepted) + if Delivered(status) then {body} else {}
      ensures heldBy == if arms then Some(old(clock.looks)) else old(heldBy)
      ensures acceptedBy == if Delivered(status) then Some(old(clock.looks)) else old(acceptedBy)
      ensures clock.looks == old(clock.looks) + if posted && Noted(clock.world(old(clock.looks)).reply) then 2 else 1
      ensures limiter.until == if arms then HeldUntil(clock.world, old(clock.looks)) else old(limiter.until)
      ensures old(Smooth()) ==> Smooth() && Delivered(status) && !arms
    {
      assert Smooth() ==> SmoothAt(clock.world, clock.looks, limiter.until);
      posted, arms := false, false;
      ghost var at := clock.looks;
      var w := clock.Look();
      status := -1;
      if w.transport && !NoTimeToPost(w) {
        status, posted := w.reply.status, true;
        arms := NoteReply(w.reply, at);
        NotePost(body, status, arms, at);
      }
    }

    /** The history of a POST made at that look. */
    ghost method NotePost(body: bytes, status: int, arms: bool, at: nat)
      requires watch == WatchOf(log) && PostsWithin(log, maxBatchBytes) && !TooBig(|body|)
      requires CanPost(clock.world(at)) && status == clock.world(at).reply.status && arms == AsksHold(clock.world, at)
      requires Grounded(0, log, Accepts(), heldBy, acceptedBy, clock.world)
      requires limiter.until > 0 ==> arms || heldBy.Some?
      modifies this`log, this`watch, this`accepted, this`heldBy, this`acceptedBy
      ensures Valid() && log == Then(old(log), Posted(body, status, arms))
      ensures watch == Observe(old(watch), Posted(body, status, arms))
      ensures Accepts() == old(Accepts()) + if Delivered(status) then count(body) else 0
      ensures PostCount(log) == old(PostCount(log)) + 1
      ensures accepted == old(accepted) + if Delivered(status) then {body} else {}
      ensures heldBy == if arms then Some(at) else old(heldBy)
      ensures acceptedBy == if Delivered(status) then Some(at) else old(acceptedBy)
    {
      if arms {
        heldBy := Some(at);
      }
      if Delivered(status) {
        acceptedBy := Some(at);
        accepted := accepted + {body};
      }
      log := Then(log, Posted(body, status, arms));
      watch := Observe(watch, Posted(body, status, arms));
    }

    /** One attempt; done says that another would be useless or unwelcome. */
    method PostOnce(body: bytes) returns (status: int, done: bool)
      requires Valid() && !TooBig(|body|)
      modifies clock, this`log, this`watch, this`accepted, this`heldBy, this`acceptedBy, limiter
      ensures Valid() && clock.looks > old(clock.looks)
      ensures Delivered(status) ==> Accepted(log, body) && body in accepted
      ensures old(accepted) <= accepted
      ensures Accepts() == old(Accepts()) + if Delivered(status) then count(body) else 0
      ensures PostCount(log) <= old(PostCount(log)) + 1
      ensures done == (!Retryable(status) || limiter.Blocked(clock.world(clock.looks - 1).now))
      ensures done && Retryable(status) ==> EndsHeld(log)
      ensures TryStep(old(watch), watch) && (!done ==> Unheld(old(watch), watch))
      ensures old(Smooth()) ==> Smooth() && Delivered(status)
      ensures JamUntil(clock.world, old(clock.looks) + 3) ==>
                done && clock.looks == old(clock.looks) + 3 && limiter.until == HOLD && status == 429
    {
      ghost var posted, arms;
      ghost var at := clock.looks;
      assert JamUntil(clock.world, at + 3) ==>
          JamAt(clock.world, at) && JamAt(clock.world, at + 1) && JamAt(clock.world, at + 2);
      status, posted, arms := PostAndNote(body);
      done := true;
      if Retryable(status) {
        done := Held();
      }
    }

    /** POST until delivered, rejected for good, held by the server, told to stop, or out of
        attempts; tries counts them. */
    method Attempt(body: bytes) returns (status: int, ghost tries: nat)
      requires Valid() && !TooBig(|body|)
      modifies clock, this`log, this`watch, this`accepted, this`heldBy, this`acceptedBy, this`retries, limiter
      ensures Valid() && clock.looks >= old(clock.looks)
      ensures Delivered(status) ==> Accepted(log, body) && body in accepted
      ensures old(accepted) <= accepted
      ensures Accepts() == old(Accepts()) + if Delivered(status) then count(body) else 0
      ensures tries <= Attempts() && PostCount(log) <= old(PostCount(log)) + tries
      ensures old(retries) + tries - 1 <= retries <= old(retries) + tries
      ensures Retryable(status) ==>
                EndsHeld(log) || (clock.looks > 0 && clock.world(clock.looks - 1).stop) || tries == Attempts()
      ensures TryStep(old(watch), watch)
      ensures old(Smooth()) ==> Smooth() && Delivered(status)
      ensures JamUntil(clock.world, old(clock.looks) + 3) ==>
                clock.looks == old(clock.looks) + 3 && limiter.until == HOLD && status == 429
    {
      status := -1;
      ghost var at := clock.looks;
      var attempts := if maxRetries >= 0 then maxRetries + 1 else 1;
      var attempt := 0;
      tries := 0;
      while attempt < attempts
        invariant 0 <= attempt <= attempts && tries == attempt
        invariant retries == old(retries) + if attempt > 0 then attempt - 1 else 0
        invariant Valid() && Retryable(status) && clock.looks >= at && old(accepted) <= accepted
        invariant Accepts() == old(Accepts()) && PostCount(log) <= old(PostCount(log)) + tries
        invariant if attempt > 0 then Unheld(old(watch), watch)
                  else watch == old(watch) && clock.looks == at && limiter.until == old(limiter.until)
        invariant attempt > 0 ==> !old(Smooth()) && !JamUntil(clock.world, at + 3)
      {
        if attempt > 0 {
          retries := retries + 1;
          var w := clock.Look();
          if w.stop {
            return;
          }
        }
        var done;
        status, done := PostOnce(body);
        tries := tries + 1;
        if done {
          return;
        }
        attempt := attempt + 1;
      }
    }
  }
}
