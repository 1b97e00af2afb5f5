/**
 The background sender: scrub, serialize, split, POST with retries, spill,
 replay, drain and settle. Its laws are conservation of events, in-order
 settlement of what left the ring, respect for the server's hold, and careful
 disposal of the crash record.
 */
module Sender {
  import opened Bytes
  import opened Options
  import opened SpillFile
  import opened Delivery
  import opened Posting
  import opened SpillStore
  import opened Inbox
  import Ring

  class Sender<E(0,!new)> {
    const codec: Codec<E>
    const offline: bool
    const maxBatch: nat

    const clock: Clock
    const inbox: Inbox<E>
    const poster: Poster
    const store: Store

    var sent: nat
    var failed: nat
    var vetoed: nat
    var scrubs: nat
    var crashAcked: bool

    /** What became of the events, run by run, and the batches they came in. */
    ghost var settled: seq<Outcome<E>>
    ghost var batches: Batches<E>

    // ------------------------------------------------------------ invariants

    /** Configuration, world and wiring. */
    ghost predicate Env() {
      && CodecOk(codec, inbox.fit) && maxBatch > 0 && StaysExpired(clock.world)
      && poster.clock == clock && store.clock == clock && store.offline == offline
      && poster.count == codec.count && store.count == codec.count
      && Aside(inbox) && Aside(inbox.ring) && Aside(inbox.ring.slots) && Beside(store) && Beside(poster.limiter)
    }

    /** The parts are objects of their own: their types say so, and the proofs lean on it. */
    ghost predicate Aside(o: object) {
      Beside(o) && o != poster.limiter && o != store
    }

    ghost predicate Beside(o: object) {
      o != this && o != clock && o != poster
    }

    /** Every run booked as sent or spilled was accepted or appended, and the crash record is gone
        exactly when, with a path set, such a run had a crash event in it. */
    ghost predicate Marks()
      reads this, poster, store
    {
      && AllTruthful(settled, poster.accepted, Appended(store.spool), codec.body)
      && crashAcked == (offline && SomeHands(settled, codec.crash))
    }

    ghost predicate Core()
      reads this, poster, poster.limiter, store
    {
      Env() && poster.Valid() && store.Valid() && Terminated(store.file) && Marks()
    }

    /** Events the sender has disposed of: delivered, lost, or waiting on disk. */
    ghost function Disposed(): nat
      reads this, store
    {
      sent + failed + store.OnDisk()
    }

    /** The conservation law: everything pushed, and everything the spill file held at the
        start, is queued, dropped by the ring, vetoed, delivered, lost, on disk, or in the
        sender's hand, but for what failed rewrites of the file left to be settled again. */
    ghost predicate Books(hand: nat)
      reads this, store, inbox.ring
    {
      inbox.ring.size + inbox.ring.dropped + vetoed + Disposed() + hand
      == |inbox.ring.pushed| + Total(store.lines0, codec.count) + store.Duplicated()
    }

    /** What is counted as sent is exactly what the server accepted, over all drains. */
    ghost predicate Ledger()
      reads this, poster
    {
      sent == poster.Accepts()
    }

    /** What left the ring is in the batches, but for what is in hand, and what they left to settle
        was settled. */
    ghost predicate Traced(hand: seq<E>)
      reads this, inbox
    {
      Accounts(settled, batches, codec.scrub, offline) && inbox.popped == PoppedIn(batches) + hand
    }

    ghost predicate Valid()
      reads this, poster, poster.limiter, store, inbox, inbox.ring, inbox.ring.slots
    {
      Core() && inbox.Valid() && Books(0) && Ledger() && Traced([])
    }

    /** The state with a batch in hand. */
    ghost predicate Holds(evs: seq<E>)
      reads this, poster, poster.limiter, store, inbox, inbox.ring, inbox.ring.slots
    {
      Core() && inbox.Valid() && Books(|evs|) && Ledger() && Traced(evs) && AllFit(evs, inbox.fit)
    }

    /** No body is too big, and from here on every POST is accepted and no hold is on. */
    ghost predicate Unhindered()
      reads poster.clock, poster.limiter
    {
      poster.Smooth() && poster.maxBatchBytes <= 0
    }

    /** From here on nothing goes wrong. */
    ghost predicate Ideally()
      reads clock, poster.clock, poster.limiter
    {
      Unhindered() && WorksFrom(clock.world, clock.looks)
    }

    /** There is no path, and the server throttles at the first n looks. */
    ghost predicate Jams(n: nat) {
      JamUntil(clock.world, n) && !offline && poster.maxBatchBytes <= 0 && KeepsAll(codec)
    }

    ghost predicate Jammed(n: nat)
      reads clock, poster.limiter
    {
      clock.looks == n && poster.limiter.until == HOLD
    }

    /** The sender over its parts, none of which has done anything yet. */
    constructor (codec: Codec<E>, offline: bool, maxBatch: nat, clock: Clock, inbox: Inbox<E>, poster: Poster,
                 store: Store)
      requires CodecOk(codec, inbox.fit) && maxBatch > 0 && StaysExpired(clock.world)
      requires poster.clock == clock && poster.count == codec.count && poster.Valid() && poster.Accepts() == 0
      requires store.clock == clock && store.count == codec.count && store.offline == offline && store.Valid()
      requires store.replays == NoRewrite && store.lines0 == Lines(store.file) && Terminated(store.file)
      requires inbox.Valid() && inbox.popped == [] && inbox.ring.size == inbox.ring.dropped == |inbox.ring.pushed| == 0
      ensures Valid() && this.codec == codec && this.offline == offline && this.maxBatch == maxBatch
      ensures this.clock == clock && this.inbox == inbox && this.poster == poster && this.store == store
      ensures sent == failed == vetoed == 0 && !crashAcked && settled == [] && batches == NoBatch
    {
      this.codec, this.offline, this.maxBatch := codec, offline, maxBatch;
      this.clock, this.inbox, this.poster, this.store := clock, inbox, poster, store;
      sent, failed, vetoed, scrubs, crashAcked := 0, 0, 0, 0, false;
      settled, batches := [], NoBatch;
      new;
      StartsValid();
    }

    lemma StartsValid()
      requires Env() && poster.Valid() && store.Valid() && Terminated(store.file) && inbox.Valid()
      requires settled == [] && batches == NoBatch && inbox.popped == [] && !crashAcked
      requires sent == failed == vetoed == poster.Accepts() == 0 && store.replays == NoRewrite
      requires inbox.ring.size == inbox.ring.dropped == |inbox.ring.pushed| == 0 && store.lines0 == Lines(store.file)
      ensures Valid()
    {
      assert inbox.popped == PoppedIn(batches) + [];
    }

    // ---------------------------------------------------------- one POST cycle

    /** The crash record may go once a body with its event is delivered or durably spilled. */
    method AckCrash(handed: bool)
      modifies this`crashAcked
      ensures crashAcked == (old(crashAcked) || (handed && offline))
    {
      if handed && offline {
        crashAcked := true;
      }
    }

    /** The books of one run: its fate, and the crash record's. */
    method Book(evs: seq<E>, ghost fate: Fate, handed: bool)
      requires Marks() && Truthful(Outcome(evs, fate), poster.accepted, Appended(store.spool), codec.body)
      requires handed == Hands(Outcome(evs, fate), codec.crash)
      modifies this`settled, this`crashAcked
      ensures Marks() && settled == old(settled) + [Outcome(evs, fate)]
    {
      TruthfulSnoc(settled, Outcome(evs, fate), poster.accepted, Appended(store.spool), codec.body);
      SomeHandsSnoc(settled, Outcome(evs, fate), codec.crash);
      settled := settled + [Outcome(evs, fate)];
      AckCrash(handed);
    }

    /** The body of a run of events. */
    ghost predicate BodyOf(body: bytes, evs: seq<E>) {
      body == codec.body(evs) && OneLine(body) && codec.count(body) == |evs|
    }

    /** Book the result of a cycle: delivered, rejected, spilled or lost. */
    method Dispose(body: bytes, evs: seq<E>, hasCrash: bool, status: int) returns (ghost fate: Fate)
      requires Core() && BodyOf(body, evs) && hasCrash == HasCrash(evs, codec.crash)
      requires Delivered(status) ==> body in poster.accepted
      modifies clock, store`file, store`spool, this`sent, this`failed, this`settled, this`crashAcked
      ensures Core() && settled == old(settled) + [Outcome(evs, fate)] && clock.looks >= old(clock.looks)
      ensures Disposed() == old(Disposed()) + |evs|
      ensures sent == old(sent) + if fate == Sent then |evs| else 0
      ensures fate == Sent <==> Delivered(status)
      ensures fate == Spilled ==> EndsWith(store.file, body) && Retryable(status)
      ensures fate == Sent ==> failed == old(failed)
      ensures fate == Sent || !offline ==> clock.looks == old(clock.looks) && store.file == old(store.file)
    {
      if Delivered(status) {
        sent := sent + |evs|;
        fate := Sent;
        Book(evs, fate, hasCrash);
      } else if PermanentReject(status) || !offline {
        failed := failed + |evs|;
        fate := Failed;
        Book(evs, fate, false);
      } else {
        fate := SpillOrLose(body, evs, hasCrash);
      }
    }

    method SpillOrLose(body: bytes, evs: seq<E>, hasCrash: bool) returns (ghost fate: Fate)
      requires Core() && BodyOf(body, evs) && hasCrash == HasCrash(evs, codec.crash)
      modifies clock, store`file, store`spool, this`failed, this`settled, this`crashAcked
      ensures Core() && settled == old(settled) + [Outcome(evs, fate)] && clock.looks >= old(clock.looks)
      ensures Disposed() == old(Disposed()) + |evs| && fate != Sent
      ensures fate == Failed ==> !offline || |body| >= MAX_BYTES || clock.DiskFailed()
      ensures fate == Spilled ==> EndsWith(store.file, body)
    {
      ghost var before := Appended(store.spool);
      var ok, lost := store.Spill(body);
      TruthfulGrows(settled, poster.accepted, poster.accepted, before, Appended(store.spool), codec.body);
      failed := failed + lost + if ok then 0 else |evs|;
      fate := if ok then Spilled else Failed;
      Book(evs, fate, ok && hasCrash);
    }

    /** POST one body with retries and settle its events exactly once. */
    method SendOne(body: bytes, evs: seq<E>, hasCrash: bool) returns (held: bool, ghost fate: Fate)
      requires Core() && BodyOf(body, evs) && hasCrash == HasCrash(evs, codec.crash) && !poster.TooBig(|body|)
      modifies clock, poster`log, poster`watch, poster`accepted, poster`heldBy, poster`acceptedBy, poster`retries,
               poster.limiter, store`file, store`spool, this`sent, this`failed, this`settled, this`crashAcked
      ensures Core() && settled == old(settled) + [Outcome(evs, fate)] && clock.looks >= old(clock.looks)
      ensures Disposed() == old(Disposed()) + |evs|
      ensures sent == old(sent) + if fate == Sent then |evs| else 0
      ensures fate == Sent ==> Accepted(poster.log, body)
      ensures sent + old(poster.Accepts()) == old(sent) + poster.Accepts()
      ensures PostCount(poster.log) <= old(PostCount(poster.log)) + poster.Attempts()
      ensures CycleStep(old(poster.watch), poster.watch, held)
      ensures old(Ideally()) ==> Ideally() && !held && failed == old(failed) && store.file == old(store.file)
      ensures Jams(old(clock.looks) + 4) ==> held && Jammed(old(clock.looks) + 4)
    {
      ghost var was, at := poster.accepted, clock.looks;
      var status, _ := poster.Attempt(body);
      TruthfulGrows(settled, was, poster.accepted, Appended(store.spool), Appended(store.spool), codec.body);
      fate := Dispose(body, evs, hasCrash, status);
      held := Hold(at + 3);
    }

    /** Ask for the hold, with what is known of two kinds of world. */
    method Hold(ghost jam: nat) returns (held: bool)
      requires Env() && poster.Valid()
      modifies clock, poster`log, poster`watch
      ensures poster.Valid() && clock.looks == old(clock.looks) + 1
      ensures held == poster.limiter.Blocked(clock.world(old(clock.looks)).now)
      ensures poster.log == Then(old(poster.log), Checked(held))
      ensures poster.watch == Observe(old(poster.watch), Checked(held))
      ensures poster.Accepts() == old(poster.Accepts()) && PostCount(poster.log) == old(PostCount(poster.log))
      ensures (held ==> FoundHeld()) && (old(poster.Smooth()) ==> poster.Smooth() && !held)
      ensures JamUntil(clock.world, jam + 1) && old(Jammed(jam)) ==> held && Jammed(jam + 1)
    {
      assert JamUntil(clock.world, jam + 1) ==> JamAt(clock.world, jam);
      HoldPositive();
      held := poster.Held();
    }

    /** Ask whether the shutdown budget is spent, with what is known of such worlds. */
    method BudgetSpent(ghost jam: nat) returns (spent: bool)
      requires Env()
      modifies clock
      ensures spent == Expired(clock.world(old(clock.looks))) && clock.looks == old(clock.looks) + 1
      ensures spent ==> Expired(clock.world(clock.looks))
      ensures old(Unhindered()) ==> Unhindered() && !spent
      ensures old(Ideally()) ==> Ideally()
      ensures old(clock.looks) < jam && Jams(jam) ==> !spent
    {
      ghost var at := clock.looks;
      assert Unhindered() ==> SmoothAt(clock.world, at, poster.limiter.until);
      assert Jams(jam) && at < jam ==> JamAt(clock.world, at);
      spent := clock.ShutdownExpired();
      assert Later(at, clock.looks);
    }

    /** The same, of the whole state. */
    method AskHold(ghost jam: nat) returns (held: bool)
      requires Valid()
      modifies clock, poster`log, poster`watch
      ensures Valid() && clock.looks == old(clock.looks) + 1
      ensures held == poster.limiter.Blocked(clock.world(old(clock.looks)).now)
      ensures poster.log == Then(old(poster.log), Checked(held))
      ensures poster.watch == Observe(old(poster.watch), Checked(held))
      ensures (held ==> FoundHeld()) && (old(poster.Smooth()) ==> poster.Smooth() && !held)
      ensures JamUntil(clock.world, jam + 1) && old(Jammed(jam)) ==> held && Jammed(jam + 1)
    {
      held := Hold(jam);
    }

    /** The last thing done was to look at the hold, and it was on. */
    ghost predicate FoundHeld()
      reads clock, poster, poster.limiter
    {
      EndsHeld(poster.log) && clock.looks > 0 && poster.limiter.Blocked(clock.world(clock.looks - 1).now)
    }

    // --------------------------------------------------------- runs of events

    method ScanCrash(evs: seq<E>) returns (has: bool)
      ensures has == HasCrash(evs, codec.crash)
    {
      has := false;
      var rest := evs;
      while rest != [] && !has
        invariant HasCrash(evs, codec.crash) == (has || HasCrash(rest, codec.crash))
        decreases |rest|
      {
        has := codec.crash(rest[0]);
        rest := rest[1..];
      }
    }

    /** What a run of events becomes, as its outcomes say. */
    twostate predicate Settling(new evs: seq<E>, new os: seq<Outcome<E>>)
      reads this, store
    {
      && settled == old(settled) + os && Settles(os, evs, poster.maxBatchBytes, codec.body)
      && Disposed() == old(Disposed()) + |evs| && sent == old(sent) + CountOf(os, Sent)
    }

    method Lose(evs: seq<E>) returns (ghost os: seq<Outcome<E>>)
      requires Core()
      modifies this`failed, this`settled, this`crashAcked
      ensures Core() && Settling(evs, os)
    {
      failed := failed + |evs|;
      os := [Outcome(evs, Failed)];
      SettlesOne(evs, Failed, poster.maxBatchBytes, codec.body);
      Book(evs, Failed, false);
    }

    /** Spill a run without exceeding the body cap, halving it as needed. */
    method PersistRun(evs: seq<E>) returns (ghost os: seq<Outcome<E>>)
      requires Core() && AllFit(evs, inbox.fit) && evs != []
      modifies clock, store`file, store`spool, this`failed, this`settled, this`crashAcked
      ensures Core() && Settling(evs, os) && clock.looks >= old(clock.looks)
      decreases |evs|
    {
      var hasCrash := ScanCrash(evs);
      if !offline {
        os := Lose(evs);
        return;
      }
      var body := codec.body(evs);
      var w := clock.Look();
      if w.oom {
        os := Lose(evs);
      } else if poster.TooBig(|body|) && |evs| > 1 {
        os := PersistHalves(evs);
      } else if poster.TooBig(|body|) {
        os := Lose(evs);
      } else {
        ghost var fate := SpillOrLose(body, evs, hasCrash);
        os := [Outcome(evs, fate)];
        SettlesOne(evs, fate, poster.maxBatchBytes, codec.body);
      }
    }

    method PersistHalves(evs: seq<E>) returns (ghost os: seq<Outcome<E>>)
      requires Core() && AllFit(evs, inbox.fit) && |evs| > 1
      modifies clock, store`file, store`spool, this`failed, this`settled, this`crashAcked
      ensures Core() && Settling(evs, os) && clock.looks >= old(clock.looks)
      decreases |evs|, 0
    {
      var half := |evs| / 2;
      ghost var a := PersistRun(evs[..half]);
      ghost var b := PersistRun(evs[half..]);
      SettlesBoth(a, b, evs, half, poster.maxBatchBytes, codec.body);
      ConcatAssoc(old(settled), a, b);
      os := a + b;
    }

    /** Serialize and POST a run, halving it under the body cap. Once a half is held by the
        server the other half is persisted without a POST. */
    method SendRun(evs: seq<E>) returns (held: bool, ghost os: seq<Outcome<E>>)
      requires Core() && AllFit(evs, inbox.fit) && evs != []
      modifies clock, poster`log, poster`watch, poster`accepted, poster`heldBy, poster`acceptedBy, poster`retries,
               poster.limiter, store`file, store`spool, this`sent, this`failed, this`settled, this`crashAcked
      ensures Core() && Settling(evs, os) && clock.looks >= old(clock.looks)
      ensures sent + old(poster.Accepts()) == old(sent) + poster.Accepts()
      ensures RunStep(old(poster.watch), poster.watch, held)
      ensures old(Ideally()) ==> Ideally() && !held && failed == old(failed) && store.file == old(store.file)
      ensures Jams(old(clock.looks) + 6) ==> held && Jammed(old(clock.looks) + 6)
      decreases |evs|, 2
    {
      var expired := BudgetSpent(clock.looks + 6);
      if expired {
        held := false;
        os := PersistRun(evs);
      } else {
        held, os := SendBody(evs);
      }
    }

    /** The same when shutdown has not run out of time. */
    method SendBody(evs: seq<E>) returns (held: bool, ghost os: seq<Outcome<E>>)
      requires Core() && AllFit(evs, inbox.fit) && evs != []
      modifies clock, poster`log, poster`watch, poster`accepted, poster`heldBy, poster`acceptedBy, poster`retries,
               poster.limiter, store`file, store`spool, this`sent, this`failed, this`settled, this`crashAcked
      ensures Core() && Settling(evs, os) && clock.looks >= old(clock.looks)
      ensures sent + old(poster.Accepts()) == old(sent) + poster.Accepts()
      ensures RunStep(old(poster.watch), poster.watch, held)
      ensures old(Ideally()) ==> Ideally() && !held && failed == old(failed) && store.file == old(store.file)
      ensures Jams(old(clock.looks) + 5) ==> held && Jammed(old(clock.looks) + 5)
      decreases |evs|, 1
    {
      ghost var at := clock.looks;
      assert Ideally() ==> WorksAt(clock.world, at);
      assert Jams(at + 5) ==> JamAt(clock.world, at);
      held := false;
      var hasCrash := ScanCrash(evs);
      var body := codec.body(evs);
      var w := clock.Look();
      if w.oom || (poster.TooBig(|body|) && |evs| == 1) {
        os := Lose(evs);
      } else if poster.TooBig(|body|) {
        held, os := SendHalves(evs);
      } else {
        held, os := SendWhole(body, evs, hasCrash);
      }
    }

    method SendWhole(body: bytes, evs: seq<E>, hasCrash: bool) returns (held: bool, ghost os: seq<Outcome<E>>)
      requires Core() && BodyOf(body, evs) && hasCrash == HasCrash(evs, codec.crash) && !poster.TooBig(|body|)
      modifies clock, poster`log, poster`watch, poster`accepted, poster`heldBy, poster`acceptedBy, poster`retries,
               poster.limiter, store`file, store`spool, this`sent, this`failed, this`settled, this`crashAcked
      ensures Core() && Settling(evs, os) && clock.looks >= old(clock.looks)
      ensures sent + old(poster.Accepts()) == old(sent) + poster.Accepts()
      ensures RunStep(old(poster.watch), poster.watch, held)
      ensures old(Ideally()) ==> Ideally() && !held && failed == old(failed) && store.file == old(store.file)
      ensures Jams(old(clock.looks) + 4) ==> held && Jammed(old(clock.looks) + 4)
    {
      ghost var fate;
      held, fate := SendOne(body, evs, hasCrash);
      os := [Outcome(evs, fate)];
      SettlesOne(evs, fate, poster.maxBatchBytes, codec.body);
    }

    method SendHalves(evs: seq<E>) returns (held: bool, ghost os: seq<Outcome<E>>)
      requires Core() && AllFit(evs, inbox.fit) && |evs| > 1
      modifies clock, poster`log, poster`watch, poster`accepted, poster`heldBy, poster`acceptedBy, poster`retries,
               poster.limiter, store`file, store`spool, this`sent, this`failed, this`settled, this`crashAcked
      ensures Core() && Settling(evs, os) && clock.looks >= old(clock.looks)
      ensures sent + old(poster.Accepts()) == old(sent) + poster.Accepts()
      ensures RunStep(old(poster.watch), poster.watch, held)
      decreases |evs|, 0
    {
      var half := |evs| / 2;
      ghost var a, b;
      held, a := SendRun(evs[..half]);
      if held {
        b := PersistRun(evs[half..]);
      } else {
        ghost var mid := poster.watch;
        held, b := SendRun(evs[half..]);
        RunStepsCompose(old(poster.watch), mid, poster.watch, held);
      }
      SettlesBoth(a, b, evs, half, poster.maxBatchBytes, codec.body);
      ConcatAssoc(old(settled), a, b);
      os := a + b;
    }

    /** Scrub a batch, compacting out the vetoed events. */
    method ScrubEvents(evs: seq<E>) returns (out: seq<E>)
      requires Env() && AllFit(evs, inbox.fit)
      modifies this`vetoed, this`scrubs
      ensures AllFit(out, inbox.fit) && out == Kept(evs, codec.scrub, old(scrubs))
      ensures |out| + vetoed == |evs| + old(vetoed) && scrubs == old(scrubs) + |evs|
    {
      out := [];
      var rest := evs;
      ghost var n0 := scrubs;
      ScrubStarts(evs, n0, codec, inbox.fit);
      while rest != []
        invariant Scrubbing(evs, n0, out, rest, scrubs, codec, inbox.fit)
        invariant |out| + |rest| + vetoed == |evs| + old(vetoed)
        decreases |rest|
      {
        ScrubNext(evs, n0, out, rest, scrubs, codec, inbox.fit);
        var r := codec.scrub(scrubs, rest[0]);
        if r.Some? {
          out := out + [r.value];
        } else {
          vetoed := vetoed + 1;
        }
        rest, scrubs := rest[1..], scrubs + 1;
      }
      ScrubEnds(evs, n0, out, scrubs, codec, inbox.fit);
    }

    // ------------------------------------------------------------------ replay

    /** Why a replay leaves lines untried: the hold is on, the last POST may succeed later, or the
        look before number n found no transport or no time. */
    ghost predicate StopReason(n: nat)
      reads poster
    {
      || EndsHeld(poster.log)
      || (poster.log.Then? && poster.log.last.Posted? && Retryable(poster.log.last.status))
      || (n > 0 && !CanPost(clock.world(n - 1)))
    }

    /** The events settled in a replay, and what became of the POSTs it made. */
    twostate predicate Settled(new events: nat)
      reads this, poster
    {
      sent + failed == old(sent + failed) + events && sent + old(poster.Accepts()) == old(sent) + poster.Accepts()
    }

    /** One spilled line: keep it untried, drop it as too big, or POST it. */
    method ReplayLine(line: bytes, stopped: bool) returns (keep: bool, stop: bool)
      requires Env() && poster.Valid() && (stopped || poster.watch.Idle? || poster.watch.Lapsed?)
      modifies clock, poster`log, poster`watch, poster`accepted, poster`heldBy, poster`acceptedBy, poster`retries,
               poster.limiter, this`sent, this`failed
      ensures poster.Valid() && old(poster.accepted) <= poster.accepted
      ensures Settled(if keep then 0 else codec.count(line))
      ensures clock.looks >= old(clock.looks) && (keep ==> stop) && (stop && !stopped ==> StopReason(clock.looks))
      ensures old(Unhindered()) ==> Unhindered()
      ensures old(Unhindered()) && !stopped ==> !keep && !stop && failed == old(failed)
      ensures stopped ==> keep && poster.watch == old(poster.watch) && poster.log == old(poster.log)
                          && clock.looks == old(clock.looks) && failed == old(failed)
      ensures !stop ==> poster.watch.Idle? || poster.watch.Lapsed?
      ensures old(poster.watch.Idle?) ==> TryStep(Idle, poster.watch)
      ensures old(poster.watch.Lapsed?) ==> poster.watch.Lapsed?
    {
      keep, stop := true, stopped;
      assert Unhindered() ==> SmoothAt(clock.world, clock.looks, poster.limiter.until);
      if !stop {
        stop := clock.ShutdownExpired();
      }
      if !stop {
        keep := false;
        if poster.TooBig(|line|) {
          failed := failed + codec.count(line);
        } else {
          keep, stop := ReplayPost(line);
        }
      }
    }

    /** POST a line: gone if accepted or rejected for good, else kept, which stops the replay. */
    method ReplayPost(line: bytes) returns (keep: bool, stop: bool)
      requires Env() && poster.Valid() && (poster.watch.Idle? || poster.watch.Lapsed?) && !poster.TooBig(|line|)
      modifies clock, poster`log, poster`watch, poster`accepted, poster`heldBy, poster`acceptedBy, poster`retries,
               poster.limiter, this`sent, this`failed
      ensures poster.Valid() && clock.looks >= old(clock.looks) && old(poster.accepted) <= poster.accepted
      ensures Settled(if keep then 0 else codec.count(line))
      ensures old(Unhindered()) ==> Unhindered() && !keep && !stop && failed == old(failed)
      ensures (keep ==> stop) && (stop ==> StopReason(clock.looks))
      ensures !stop ==> poster.watch.Idle? || poster.watch.Lapsed?
      ensures old(poster.watch.Idle?) ==> TryStep(Idle, poster.watch)
      ensures old(poster.watch.Lapsed?) ==> poster.watch.Lapsed?
    {
      assert Unhindered() ==> SmoothAt(clock.world, clock.looks, poster.limiter.until);
      keep, stop := false, false;
      var status;
      ghost var posted, arms;
      status, posted, arms := poster.PostAndNote(line);
      if Delivered(status) {
        sent := sent + codec.count(line);
        stop := Hold(0);
      } else if PermanentReject(status) {
        failed := failed + codec.count(line);
      } else {
        keep, stop := true, true;
      }
    }

    /** Replay the spill file oldest first. Whatever bytes it held, a rewrite leaves exactly the
        lines not settled, a suffix of the complete ones. The last look decides the rewrite: if it
        fails, the settled lines stay on disk and their events are counted again. */
    method Replay() returns (ghost tried: bool, ghost k: nat)
      requires Env() && poster.Valid() && store.Valid() && Marks() && poster.watch.Idle?
      modifies clock, poster`log, poster`watch, poster`accepted, poster`heldBy, poster`acceptedBy, poster`retries,
               poster.limiter, store, this`sent, this`failed
      ensures poster.Valid() && store.Valid() && Marks()
      ensures TryStep(Idle, poster.watch) && clock.looks >= old(clock.looks)
      ensures tried == (offline && !Expired(clock.world(old(clock.looks))) && old(store.file) != []
                        && clock.world(old(clock.looks) + 1).disk)
      ensures !tried ==> k == 0 && store.file == old(store.file) && store.replays == old(store.replays) && Settled(0)
      ensures !tried ==> failed == old(failed)
      ensures tried ==> clock.looks > old(clock.looks) + 2 && Replayed(old(store.file), k, old(store.replays))
      ensures tried ==> Settled(EventsIn(old(Lines(store.file)), k, codec.count))
      ensures !offline ==> clock.looks == old(clock.looks) && poster.limiter.until == old(poster.limiter.until)
      ensures Disposed() + old(store.Duplicated()) == old(Disposed()) + store.Duplicated()
      ensures store.Duplicated() > old(store.Duplicated())
         <==> tried && !clock.world(clock.looks - 1).disk && EventsIn(old(Lines(store.file)), k, codec.count) > 0
      ensures Terminated(old(store.file)) ==> Terminated(store.file)
      ensures old(Unhindered()) ==> Unhindered()
      ensures tried && old(Unhindered()) ==> k == |old(Lines(store.file))| && failed == old(failed)
      ensures old(Ideally()) ==>
                Ideally() && failed == old(failed) && store.file == Cleared(offline, old(store.file))
    {
      k := 0;
      var ready := ReplayReady();
      tried := ready;
      if ready {
        k := ReplayFile();
      }
    }

    /** The first k lines were settled, all of them unless there was a reason to stop; the last look
        decided whether the others are what is left of the file. */
    ghost predicate Replayed(file0: bytes, k: nat, before: Rewrites)
      reads clock, poster, store
    {
      && clock.looks > 0 && (k == |Lines(file0)| || StopReason(clock.looks - 1))
      && store.Rewritten(file0, k, before, clock.looks - 1)
    }

    /** A path, time left, a file with something in it, and a read that succeeds. */
    method ReplayReady() returns (ready: bool)
      requires Env()
      modifies clock
      ensures clock.looks >= old(clock.looks) && (ready ==> clock.looks == old(clock.looks) + 2)
      ensures !offline ==> clock.looks == old(clock.looks)
      ensures ready == (offline && !Expired(clock.world(old(clock.looks))) && store.file != []
                        && clock.world(old(clock.looks) + 1).disk)
      ensures old(Unhindered()) ==> Unhindered()
      ensures old(Ideally()) ==> Ideally() && ready == (offline && store.file != [])
    {
      if !offline {
        return false;
      }
      var expired := BudgetSpent(0);
      if expired || |store.file| == 0 {
        return false;
      }
      assert Ideally() ==> WorksAt(clock.world, clock.looks);
      var w := clock.Look();
      return w.disk;
    }

    /** Scan the file, then rewrite it. */
    method ReplayFile() returns (ghost k: nat)
      requires Env() && poster.Valid() && store.Valid() && Marks() && poster.watch.Idle?
      modifies clock, poster`log, poster`watch, poster`accepted, poster`heldBy, poster`acceptedBy, poster`retries,
               poster.limiter, store, this`sent, this`failed
      ensures poster.Valid() && store.Valid() && Marks()
      ensures TryStep(Idle, poster.watch) && clock.looks > old(clock.looks)
      ensures Replayed(old(store.file), k, old(store.replays))
      ensures Settled(EventsIn(old(Lines(store.file)), k, codec.count))
      ensures Disposed() + old(store.Duplicated()) == old(Disposed()) + store.Duplicated()
      ensures store.Duplicated() > old(store.Duplicated())
         <==> !clock.world(clock.looks - 1).disk && EventsIn(old(Lines(store.file)), k, codec.count) > 0
      ensures Terminated(old(store.file)) ==> Terminated(store.file)
      ensures old(Unhindered()) ==> Unhindered() && k == |old(Lines(store.file))| && failed == old(failed)
      ensures old(Ideally()) ==> Ideally() && store.file == []
    {
      var keep: bytes;
      keep, k := ReplayLines();
      RewriteFile(keep, k);
    }

    /** The rewrite, as the whole state sees it. */
    method RewriteFile(keep: bytes, ghost k: nat)
      requires Env() && poster.Valid() && store.Valid() && Marks()
      requires k <= |Lines(store.file)| && keep == Unlines(Lines(store.file)[k..])
      modifies clock, store
      ensures poster.Valid() && store.Valid() && Marks() && clock.looks == old(clock.looks) + 1
      ensures store.Rewritten(old(store.file), k, old(store.replays), old(clock.looks))
      ensures store.OnDisk() + EventsIn(old(Lines(store.file)), k, codec.count) + old(store.Duplicated())
           == old(store.OnDisk()) + store.Duplicated()
      ensures store.Duplicated() > old(store.Duplicated())
         <==> !clock.world(old(clock.looks)).disk && EventsIn(old(Lines(store.file)), k, codec.count) > 0
      ensures Terminated(old(store.file)) ==> Terminated(store.file)
      ensures old(Unhindered()) ==> Unhindered()
      ensures old(Ideally()) ==> Ideally() && (k == |old(Lines(store.file))| ==> store.file == [])
    {
      assert Ideally() ==> WorksAt(clock.world, clock.looks);
      store.Rewrite(keep, k);
    }

    /** The scan over the file: settled lines first, then the kept ones. */
    method ReplayLines() returns (keep: bytes, ghost k: nat)
      requires Env() && poster.Valid() && Marks() && poster.watch.Idle?
      modifies clock, poster`log, poster`watch, poster`accepted, poster`heldBy, poster`acceptedBy, poster`retries,
               poster.limiter, this`sent, this`failed
      ensures poster.Valid() && Marks() && TryStep(Idle, poster.watch)
      ensures k <= |Lines(store.file)| && keep == Unlines(Lines(store.file)[k..])
      ensures Settled(EventsIn(Lines(store.file), k, codec.count))
      ensures clock.looks >= old(clock.looks) && (k == |Lines(store.file)| || StopReason(clock.looks))
      ensures old(Unhindered()) ==> Unhindered() && k == |Lines(store.file)| && failed == old(failed)
    {
      ghost var start: nat, gone: seq<bytes>, kept: seq<bytes>;
      ghost var was := poster.accepted;
      keep, start, gone, kept := ReplayScan(store.file);
      TruthfulGrows(settled, was, poster.accepted, Appended(store.spool), Appended(store.spool), codec.body);
      ScanEnds(store.file, start, gone, kept, keep);
      k := |gone|;
    }

    /** The loop itself: gone are the lines settled, kept the others. */
    method ReplayScan(buf: bytes)
      returns (keep: bytes, ghost start0: nat, ghost gone: seq<bytes>, ghost kept: seq<bytes>)
      requires Env() && poster.Valid() && poster.watch.Idle?
      modifies clock, poster`log, poster`watch, poster`accepted, poster`heldBy, poster`acceptedBy, poster`retries,
               poster.limiter, this`sent, this`failed
      ensures poster.Valid() && old(poster.accepted) <= poster.accepted && TryStep(Idle, poster.watch)
      ensures Scan(buf, start0, |buf|, gone, kept, keep) && Settled(Total(gone, codec.count))
      ensures clock.looks >= old(clock.looks) && (kept == [] || StopReason(clock.looks))
      ensures old(Unhindered()) ==> Unhindered() && kept == [] && failed == old(failed)
    {
      var i, start, stopped := 0, 0, false;
      keep, gone, kept := [], [], [];
      ScanStarts(buf);
      while i < |buf|
        invariant poster.Valid() && old(poster.accepted) <= poster.accepted && TryStep(Idle, poster.watch)
        invariant Scan(buf, start, i, gone, kept, keep) && Settled(Total(gone, codec.count))
        invariant if stopped then StopReason(clock.looks)
                  else kept == [] && (poster.watch.Idle? || poster.watch.Lapsed?)
        invariant clock.looks >= old(clock.looks)
        invariant old(Unhindered()) ==> Unhindered() && !stopped && failed == old(failed)
      {
        keep, start, stopped, gone, kept := ReplayByte(buf, start, i, stopped, keep, gone, kept);
        i := i + 1;
      }
      start0 := start;
    }

    /** One byte of the scan: a newline ends a line. */
    method ReplayByte(buf: bytes, start: nat, i: nat, stopped: bool, keep: bytes,
                      ghost gone: seq<bytes>, ghost kept: seq<bytes>)
      returns (keep2: bytes, start2: nat, stop: bool, ghost gone2: seq<bytes>, ghost kept2: seq<bytes>)
      requires Env() && poster.Valid() && TryStep(Idle, poster.watch)
      requires Scan(buf, start, i, gone, kept, keep) && i < |buf|
      requires if stopped then StopReason(clock.looks) else kept == [] && (poster.watch.Idle? || poster.watch.Lapsed?)
      modifies clock, poster`log, poster`watch, poster`accepted, poster`heldBy, poster`acceptedBy, poster`retries,
               poster.limiter, this`sent, this`failed
      ensures poster.Valid() && old(poster.accepted) <= poster.accepted && TryStep(Idle, poster.watch)
      ensures Scan(buf, start2, i + 1, gone2, kept2, keep2)
      ensures if stop then StopReason(clock.looks) else kept2 == [] && (poster.watch.Idle? || poster.watch.Lapsed?)
      ensures clock.looks >= old(clock.looks)
      ensures old(Unhindered()) && !stopped ==> Unhindered() && !stop && failed == old(failed)
      ensures Total(gone2, codec.count) >= Total(gone, codec.count)
      ensures Settled(Total(gone2, codec.count) - Total(gone, codec.count))
    {
      keep2, start2, stop, gone2, kept2 := keep, start, stopped, gone, kept;
      if buf[i] == LF {
        keep2, stop, gone2, kept2 := ReplaySpan(buf, start, i, stopped, keep, gone, kept);
        start2 := i + 1;
      } else {
        ScanOn(buf, start, i, gone, kept, keep);
      }
    }

    /** The line from start to the newline at i, if there is anything in it. */
    method ReplaySpan(buf: bytes, start: nat, i: nat, stopped: bool, keep: bytes,
                      ghost gone: seq<bytes>, ghost kept: seq<bytes>)
      returns (keep2: bytes, stop: bool, ghost gone2: seq<bytes>, ghost kept2: seq<bytes>)
      requires Env() && poster.Valid() && TryStep(Idle, poster.watch)
      requires Scan(buf, start, i, gone, kept, keep) && i < |buf| && buf[i] == LF
      requires if stopped then StopReason(clock.looks) else kept == [] && (poster.watch.Idle? || poster.watch.Lapsed?)
      modifies clock, poster`log, poster`watch, poster`accepted, poster`heldBy, poster`acceptedBy, poster`retries,
               poster.limiter, this`sent, this`failed
      ensures poster.Valid() && old(poster.accepted) <= poster.accepted && TryStep(Idle, poster.watch)
      ensures Scan(buf, i + 1, i + 1, gone2, kept2, keep2)
      ensures if stop then StopReason(clock.looks) else kept2 == [] && (poster.watch.Idle? || poster.watch.Lapsed?)
      ensures clock.looks >= old(clock.looks)
      ensures old(Unhindered()) && !stopped ==> Unhindered() && !stop && failed == old(failed)
      ensures Total(gone2, codec.count) >= Total(gone, codec.count)
      ensures Settled(Total(gone2, codec.count) - Total(gone, codec.count))
    {
      keep2, stop, gone2, kept2 := keep, stopped, gone, kept;
      AtNext(buf, start, i);
      if i == start {
        ScanSkips(buf, start, gone, kept, keep, codec.count);
        return;
      }
      var line := buf[start..i];
      var keepLine;
      keepLine, stop := ReplayLine(line, stopped);
      if keepLine {
        ScanKeeps(buf, start, i, gone, kept, keep, codec.count);
        keep2, kept2 := keep + (line + [LF]), kept + [line];
      } else {
        ScanSettles(buf, start, i, gone, keep, codec.count);
        gone2 := gone + [line];
      }
    }

    // ----------------------------------------------------------------- batches

    /** Captures that raced us land first; then up to maxBatch of the oldest events leave. */
    method Pop() returns (evs: seq<E>)
      requires Valid()
      modifies inbox, inbox.ring, inbox.ring.slots
      ensures Holds(evs) && BurstTaken(|old(inbox.future)|, |inbox.future|)
      ensures |evs| + inbox.ring.size == old(Waiting()) && inbox.ring.size == Beyond(old(Waiting()), maxBatch)
      ensures (evs == []) == (old(Waiting()) == 0) && Ideally() == old(Ideally())
      ensures if evs == [] then inbox.ring.size == 0
              else Shrinks(|old(inbox.future)|, |inbox.future|, old(inbox.ring.size), inbox.ring.size)
    {
      ghost var was := inbox.popped;
      evs := inbox.Take(maxBatch);
      assert was == PoppedIn(batches) + [] == PoppedIn(batches);
    }

    lemma NothingInHand()
      requires Holds([])
      ensures Valid()
    {
    }

    /** The batch in hand is settled: os is what became of what was left of it. */
    ghost method Close(evs: seq<E>, first: Option<nat>, before: seq<Outcome<E>>, os: seq<Outcome<E>>)
      requires Core() && inbox.Valid() && Books(0) && Ledger()
      requires Accounts(before, batches, codec.scrub, offline) && inbox.popped == PoppedIn(batches) + evs
      requires settled == before + os && Runs(os) == Remains(evs, first, codec.scrub) && (offline ==> first.Some?)
      modifies this`batches
      ensures Valid()
    {
      AccountsGrow(before, os, batches, evs, first, codec.scrub, offline);
      batches := Batch(batches, evs, first);
      assert inbox.popped == PoppedIn(batches) == PoppedIn(batches) + [];
    }

    method SpillBatch(evs: seq<E>) returns (ghost os: seq<Outcome<E>>)
      requires Core() && AllFit(evs, inbox.fit)
      modifies clock, store`file, store`spool, this`failed, this`vetoed, this`scrubs, this`settled, this`crashAcked
      ensures Core() && clock.looks >= old(clock.looks)
      ensures vetoed + Disposed() == old(vetoed + Disposed()) + |evs|
      ensures settled == old(settled) + os
      ensures Settles(os, Kept(evs, codec.scrub, old(scrubs)), poster.maxBatchBytes, codec.body)
    {
      os := [];
      var out := ScrubEvents(evs);
      if out != [] {
        os := PersistRun(out);
      }
    }

    method SendBatch(evs: seq<E>) returns (ghost os: seq<Outcome<E>>)
      requires Core() && AllFit(evs, inbox.fit)
      modifies clock, poster`log, poster`watch, poster`accepted, poster`heldBy, poster`acceptedBy, poster`retries,
               poster.limiter, store`file, store`spool, this`sent, this`failed, this`vetoed, this`scrubs,
               this`settled, this`crashAcked
      ensures Core() && clock.looks >= old(clock.looks)
      ensures vetoed + Disposed() == old(vetoed + Disposed()) + |evs|
      ensures settled == old(settled) + os
      ensures Settles(os, Kept(evs, codec.scrub, old(scrubs)), poster.maxBatchBytes, codec.body)
      ensures sent == old(sent) + CountOf(os, Sent) && sent + old(poster.Accepts()) == old(sent) + poster.Accepts()
      ensures TryStep(old(poster.watch), poster.watch)
      ensures old(Ideally()) ==> Ideally() && failed == old(failed) && store.file == old(store.file)
      ensures Jams(old(clock.looks) + 6) && evs != [] ==> Jammed(old(clock.looks) + 6)
    {
      os := [];
      if Jams(clock.looks + 6) && evs != [] {
        KeptAny(evs, codec, scrubs);
      }
      var out := ScrubEvents(evs);
      if out != [] {
        var held;
        held, os := SendRun(out);
        RunThenTry(old(poster.watch), poster.watch, held);
      }
    }

    /** A popped batch goes out; then the hold is looked at. */
    method SendPopped(evs: seq<E>) returns (held: bool)
      requires Holds(evs)
      modifies clock, poster`log, poster`watch, poster`accepted, poster`heldBy, poster`acceptedBy, poster`retries,
               poster.limiter, store`file, store`spool, this`sent, this`failed, this`vetoed, this`scrubs,
               this`settled, this`crashAcked, this`batches
      ensures Valid() && clock.looks > old(clock.looks) && Extends(old(settled), settled)
      ensures TryStep(old(poster.watch), poster.watch)
      ensures if held then FoundHeld() else Unheld(old(poster.watch), poster.watch)
      ensures old(Ideally()) ==> Ideally() && !held && failed == old(failed) && store.file == old(store.file)
      ensures Jams(old(clock.looks) + 7) && evs != [] ==> held && Jammed(old(clock.looks) + 7)
    {
      ghost var at := clock.looks;
      SendHand(evs);
      held := LookBehind(old(poster.watch), at + 6);
    }

    /** Look at the hold behind a batch. */
    method LookBehind(ghost before: Watch, ghost jam: nat) returns (held: bool)
      requires Valid() && TryStep(before, poster.watch)
      modifies clock, poster`log, poster`watch
      ensures Valid() && clock.looks == old(clock.looks) + 1 && TryStep(before, poster.watch)
      ensures if held then FoundHeld() else Unheld(before, poster.watch)
      ensures old(Ideally()) ==> Ideally() && !held
      ensures Jams(jam + 1) && old(Jammed(jam)) ==> held && Jammed(jam + 1)
    {
      TryThenLook(before, poster.watch, true);
      TryThenLook(before, poster.watch, false);
      held := AskHold(jam);
    }

    method SendHand(evs: seq<E>)
      requires Holds(evs)
      modifies clock, poster`log, poster`watch, poster`accepted, poster`heldBy, poster`acceptedBy, poster`retries,
               poster.limiter, store`file, store`spool, this`sent, this`failed, this`vetoed, this`scrubs,
               this`settled, this`crashAcked, this`batches
      ensures Valid() && clock.looks >= old(clock.looks) && Extends(old(settled), settled)
      ensures TryStep(old(poster.watch), poster.watch)
      ensures old(Ideally()) ==> Ideally() && failed == old(failed) && store.file == old(store.file)
      ensures Jams(old(clock.looks) + 6) && evs != [] ==> Jammed(old(clock.looks) + 6)
    {
      ghost var first, before := Some(scrubs), settled;
      ghost var os := SendBatch(evs);
      Close(evs, first, before, os);
    }

    /** Settle a batch without a POST: spill it if there is a path, else count it as lost. */
    method SettleHand(evs: seq<E>)
      requires Holds(evs)
      modifies clock, store`file, store`spool,
               this`failed, this`vetoed, this`scrubs, this`settled, this`crashAcked, this`batches
      ensures Valid() && clock.looks >= old(clock.looks) && Extends(old(settled), settled)
    {
      ghost var first, before := if offline then Some(scrubs) else None, settled;
      ghost var os;
      if offline {
        os := SpillBatch(evs);
      } else {
        os := Lose(evs);
      }
      Close(evs, first, before, os);
    }

    /** Empty the ring without a POST. */
    method SettleQueued()
      requires Valid()
      modifies clock, store`file, store`spool, inbox, inbox.ring, inbox.ring.slots,
               this`failed, this`vetoed, this`scrubs, this`settled, this`crashAcked, this`batches
      ensures Valid() && inbox.ring.size == 0 && clock.looks >= old(clock.looks) && Extends(old(settled), settled)
      ensures BurstTaken(|old(inbox.future)|, |inbox.future|)
    {
      var more := SettleNext();
      while more
        invariant Valid() && clock.looks >= old(clock.looks) && Extends(old(settled), settled)
        invariant BurstTaken(|old(inbox.future)|, |inbox.future|) && (!more ==> inbox.ring.size == 0)
        decreases more, |inbox.future|, inbox.ring.size
      {
        more := SettleNext();
      }
    }

    /** Settle the next batch, if there is one. */
    method SettleNext() returns (more: bool)
      requires Valid()
      modifies clock, store`file, store`spool, inbox, inbox.ring, inbox.ring.slots,
               this`failed, this`vetoed, this`scrubs, this`settled, this`crashAcked, this`batches
      ensures Valid() && clock.looks >= old(clock.looks) && Extends(old(settled), settled)
      ensures BurstTaken(|old(inbox.future)|, |inbox.future|)
      ensures if more then Shrinks(|old(inbox.future)|, |inbox.future|, old(inbox.ring.size), inbox.ring.size)
              else inbox.ring.size == 0
    {
      var evs := Pop();
      more := evs != [];
      SettleHand(evs);
    }

    // ------------------------------------------------------------------- drain

    /** One turn of the sending loop; done says why it must end: nothing left, or the hold is on. */
    method SendNext() returns (done: bool)
      requires Valid()
      modifies clock, poster`log, poster`watch, poster`accepted, poster`heldBy, poster`acceptedBy, poster`retries,
               poster.limiter, store`file, store`spool, inbox, inbox.ring, inbox.ring.slots, this`sent, this`failed,
               this`vetoed, this`scrubs, this`settled, this`crashAcked, this`batches
      ensures Valid() && clock.looks > old(clock.looks) && Extends(old(settled), settled)
      ensures TryStep(old(poster.watch), poster.watch)
      ensures done ==> Stopped()
      ensures !done ==> Unheld(old(poster.watch), poster.watch)
      ensures BurstTaken(|old(inbox.future)|, |inbox.future|)
      ensures !done ==> Shrinks(|old(inbox.future)|, |inbox.future|, old(inbox.ring.size), inbox.ring.size)
      ensures old(Ideally()) ==> Ideally() && (done ==> inbox.ring.size == 0) && failed == old(failed)
                                 && store.file == old(store.file)
      ensures Jams(old(clock.looks) + 8) && old(Waiting()) > 0 ==>
                done && Jammed(old(clock.looks) + 8) && inbox.ring.size == Beyond(old(Waiting()), maxBatch)
    {
      var expired := BudgetSpent(clock.looks + 8);
      if expired {
        SettleQueued();
        done := true;
      } else {
        done := PopAndSend();
      }
    }

    /** The events in the ring once the next burst has landed. */
    ghost function Waiting(): nat
      reads inbox, inbox.ring
    {
      Filled(inbox.ring.size, inbox.future, inbox.ring.slots.Length)
    }

    /** The ring is empty, or the last look found the hold on. */
    ghost predicate Stopped()
      reads clock, poster, poster.limiter, inbox.ring
    {
      inbox.ring.size == 0 || FoundHeld()
    }

    method PopAndSend() returns (done: bool)
      requires Valid()
      modifies clock, poster`log, poster`watch, poster`accepted, poster`heldBy, poster`acceptedBy, poster`retries,
               poster.limiter, store`file, store`spool, inbox, inbox.ring, inbox.ring.slots, this`sent, this`failed,
               this`vetoed, this`scrubs, this`settled, this`crashAcked, this`batches
      ensures Valid() && clock.looks >= old(clock.looks) && Extends(old(settled), settled)
      ensures TryStep(old(poster.watch), poster.watch)
      ensures done ==> Stopped()
      ensures !done ==> Unheld(old(poster.watch), poster.watch)
      ensures BurstTaken(|old(inbox.future)|, |inbox.future|)
      ensures !done ==> Shrinks(|old(inbox.future)|, |inbox.future|, old(inbox.ring.size), inbox.ring.size)
      ensures old(Ideally()) ==> Ideally() && (done ==> inbox.ring.size == 0) && failed == old(failed)
                                 && store.file == old(store.file)
      ensures Jams(old(clock.looks) + 7) && old(Waiting()) > 0 ==>
                done && Jammed(old(clock.looks) + 7) && inbox.ring.size == Beyond(old(Waiting()), maxBatch)
    {
      var evs := Pop();
      done := SendAny(evs);
    }

    /** Send what was popped, if anything was. */
    method SendAny(evs: seq<E>) returns (done: bool)
      requires Holds(evs)
      modifies clock, poster`log, poster`watch, poster`accepted, poster`heldBy, poster`acceptedBy, poster`retries,
               poster.limiter, store`file, store`spool, this`sent, this`failed, this`vetoed, this`scrubs,
               this`settled, this`crashAcked, this`batches
      ensures Valid() && clock.looks >= old(clock.looks) && Extends(old(settled), settled)
      ensures TryStep(old(poster.watch), poster.watch)
      ensures if done then evs == [] || FoundHeld() else evs != [] && Unheld(old(poster.watch), poster.watch)
      ensures old(Ideally()) ==> Ideally() && done == (evs == []) && failed == old(failed)
                                 && store.file == old(store.file)
      ensures Jams(old(clock.looks) + 7) && evs != [] ==> done && Jammed(old(clock.looks) + 7)
    {
      done := true;
      if evs != [] {
        done := SendPopped(evs);
      } else {
        NothingInHand();
      }
    }

    /** Send everything in memory, batch by batch, until the ring is empty, the server holds us
        or the shutdown budget is spent. */
    method SendQueued()
      requires Valid()
      modifies clock, poster`log, poster`watch, poster`accepted, poster`heldBy, poster`acceptedBy, poster`retries,
               poster.limiter, store`file, store`spool, inbox, inbox.ring, inbox.ring.slots, this`sent, this`failed,
               this`vetoed, this`scrubs, this`settled, this`crashAcked, this`batches
      ensures Valid() && clock.looks > old(clock.looks) && Extends(old(settled), settled)
      ensures TryStep(old(poster.watch), poster.watch) && Stopped()
      ensures BurstTaken(|old(inbox.future)|, |inbox.future|)
      ensures old(Ideally()) ==> Ideally() && inbox.ring.size == 0 && failed == old(failed)
                                 && store.file == old(store.file)
      ensures Jams(old(clock.looks) + 8) && old(Waiting()) > 0 ==>
                Jammed(old(clock.looks) + 8) && inbox.ring.size == Beyond(old(Waiting()), maxBatch)
    {
      var done := SendNext();
      ghost var jam := Jams(old(clock.looks) + 8) && old(Waiting()) > 0;
      while !done
        invariant Valid() && clock.looks > old(clock.looks) && Extends(old(settled), settled)
        invariant if done then TryStep(old(poster.watch), poster.watch) && Stopped()
                  else Unheld(old(poster.watch), poster.watch)
        invariant BurstTaken(|old(inbox.future)|, |inbox.future|)
        invariant old(Ideally()) ==> Ideally() && (done ==> inbox.ring.size == 0) && failed == old(failed)
                                     && store.file == old(store.file)
        invariant jam ==> done && Jammed(old(clock.looks) + 8)
                          && inbox.ring.size == Beyond(old(Waiting()), maxBatch)
        decreases !done, |inbox.future|, inbox.ring.size
      {
        done := SendNext();
      }
    }

    /** Replay the spill file first, then send the queue. */
    method ReplayAndSend() returns (ghost replayArmed: bool)
      requires Valid() && poster.watch.Idle?
      modifies this, clock, poster`log, poster`watch, poster`accepted, poster`heldBy, poster`acceptedBy,
               poster`retries, poster.limiter, store, inbox, inbox.ring, inbox.ring.slots
      ensures Valid() && clock.looks > old(clock.looks) && Extends(old(settled), settled)
      ensures Obeys(poster.watch, replayArmed) && Stopped()
      ensures BurstTaken(|old(inbox.future)|, |inbox.future|)
      ensures RewritesSince(store.replays, old(store.replays), offline, old(clock.looks), clock.looks)
      ensures old(Unhindered()) && offline && old(store.file) != [] && clock.world(old(clock.looks) + 1).disk ==>
                ReplaysAll(store.replays, old(store.replays), old(clock.looks) + 1,
                           Total(old(Lines(store.file)), codec.count))
      ensures old(Ideally()) ==> Ideally() && inbox.ring.size == 0 && failed == old(failed)
                                 && store.file == Cleared(offline, old(store.file))
      ensures Jams(old(clock.looks) + 8) && old(Waiting()) > 0 ==>
                Jammed(old(clock.looks) + 8) && inbox.ring.size == Beyond(old(Waiting()), maxBatch)
    {
      ReplaySpilled();
      ghost var w := poster.watch;
      replayArmed := w.Holding?;
      SendQueued();
      ReplayThenQueueObeys(w, poster.watch);
    }

    /** The replay, as the whole state sees it. */
    method ReplaySpilled()
      requires Valid() && poster.watch.Idle?
      modifies clock, poster`log, poster`watch, poster`accepted, poster`heldBy, poster`acceptedBy, poster`retries,
               poster.limiter, store, this`sent, this`failed
      ensures Valid() && clock.looks >= old(clock.looks) && TryStep(Idle, poster.watch)
      ensures RewritesSince(store.replays, old(store.replays), offline, old(clock.looks), clock.looks)
      ensures old(Unhindered()) && offline && old(store.file) != [] && clock.world(old(clock.looks) + 1).disk ==>
                ReplaysAll(store.replays, old(store.replays), old(clock.looks) + 1,
                           Total(old(Lines(store.file)), codec.count))
      ensures old(Ideally()) ==>
                Ideally() && failed == old(failed) && store.file == Cleared(offline, old(store.file))
      ensures !offline ==> clock.looks == old(clock.looks)
    {
      assert Unhindered() ==> SmoothAt(clock.world, clock.looks, poster.limiter.until);
      assert Lines(store.file)[..|Lines(store.file)|] == Lines(store.file);
      ghost var tried, k := Replay();
    }

    /** The end of a drain: settle the ring if the shutdown budget is spent, or if this is the
        final drain and the hold is on. */
    method Finish(final: bool, ghost jam: nat) returns (ghost settles: bool)
      requires Valid()
      modifies clock, poster`log, poster`watch, store`file, store`spool, inbox, inbox.ring, inbox.ring.slots,
               this`failed, this`vetoed, this`scrubs, this`settled, this`crashAcked, this`batches
      ensures Valid() && clock.looks > old(clock.looks) && Extends(old(settled), settled)
      ensures HoldKept(old(poster.watch), old(poster.log), poster.watch, poster.log)
      ensures settles == ClosingSettles(final, old(clock.looks))
      ensures if settles then inbox.ring.size == 0 && BurstTaken(|old(inbox.future)|, |inbox.future|)
              else Untouched(old(inbox.ring.Contents()), |old(inbox.future)|, old(failed), old(store.file))
                   && clock.looks == old(clock.looks) + if final then 2 else 1
      ensures old(Ideally()) ==> Ideally() && !settles
      ensures !final && Jams(jam + 1) && old(Jammed(jam)) ==> !settles && Jammed(jam + 1)
    {
      settles := ClosingSettles(final, clock.looks);
      var settle := MustSettle(final, jam);
      if settle {
        SettleQueued();
      }
    }

    /** Nothing was done to the ring, the file or the count of losses. */
    ghost predicate Untouched(contents: seq<E>, future: nat, lost: nat, file: bytes)
      reads this, store, inbox, inbox.ring, inbox.ring.slots
      requires inbox.ring.Valid()
    {
      inbox.ring.Contents() == contents && |inbox.future| == future && failed == lost && store.file == file
    }

    /** The closing looks, from number n on, find the shutdown budget spent, or a final drain held. */
    ghost predicate ClosingSettles(final: bool, n: nat)
      reads poster.limiter
    {
      Expired(clock.world(n)) || (final && poster.limiter.Blocked(clock.world(n + 1).now))
    }

    /** The closing looks. */
    method MustSettle(final: bool, ghost jam: nat) returns (settle: bool)
      requires Valid()
      modifies clock, poster`log, poster`watch
      ensures Valid() && settle == ClosingSettles(final, old(clock.looks))
      ensures HoldKept(old(poster.watch), old(poster.log), poster.watch, poster.log)
      ensures clock.looks > old(clock.looks) && (!settle ==> clock.looks == old(clock.looks) + if final then 2 else 1)
      ensures old(Ideally()) ==> Ideally() && !settle
      ensures !final && Jams(jam + 1) && old(Jammed(jam)) ==> !settle && Jammed(jam + 1)
    {
      if final {
        settle := MustSettleLast();
      } else {
        settle := BudgetSpent(jam + 1);
      }
    }

    /** Those of the final drain. */
    method MustSettleLast() returns (settle: bool)
      requires Valid()
      modifies clock, poster`log, poster`watch
      ensures Valid() && settle == ClosingSettles(true, old(clock.looks))
      ensures HoldKept(old(poster.watch), old(poster.log), poster.watch, poster.log)
      ensures clock.looks > old(clock.looks) && (!settle ==> clock.looks == old(clock.looks) + 2)
      ensures old(Ideally()) ==> Ideally() && !settle
    {
      settle := BudgetSpent(0);
      if !settle {
        settle := AskAgain();
      }
    }

    method AskAgain() returns (held: bool)
      requires Valid()
      modifies clock, poster`log, poster`watch
      ensures Valid() && clock.looks == old(clock.looks) + 1
      ensures held == poster.limiter.Blocked(clock.world(old(clock.looks)).now)
      ensures HoldKept(old(poster.watch), old(poster.log), poster.watch, poster.log)
      ensures old(Ideally()) ==> Ideally() && !held
    {
      held := AskHold(0);
    }

    /** One drain. It keeps the books, and it obeys the hold: while an armed hold does not lapse,
        at most one POST follows the arming response, none if the replay did not arm it, and a
        drain that starts held makes none. Before its closing looks, from number at on, leftover
        events are in the ring. A final drain leaves them there, to be freed uncounted, exactly
        when there are any, shutdown time is left at the first closing look, and the hold, which
        was on at the look before, is off at the second. If from its start on nothing goes wrong,
        then everything queued and everything spilled is sent. */
    method Drain(final: bool)
      returns (ghost replayArmed: bool, ghost startsHeld: bool, ghost leftover: nat, ghost at: nat)
      requires Valid()
      modifies this, clock, poster, poster.limiter, store, inbox, inbox.ring, inbox.ring.slots
      ensures Valid() && clock.looks > old(clock.looks) && Extends(old(settled), settled)
      ensures poster.acceptedBefore == old(poster.Accepts())
      ensures Obeys(poster.watch, replayArmed)
      ensures startsHeld == old(poster.limiter.Blocked(clock.world(clock.looks).now))
      ensures startsHeld ==> NoPosts(poster.log) && !replayArmed && poster.limiter.until == old(poster.limiter.until)
      ensures startsHeld ==> leftover == old(inbox.ring.size) && at == old(clock.looks) + 1
      ensures Closes(final, leftover, at)
      ensures !offline || Healthy(clock.world, old(clock.looks), clock.looks) ==>
                store.Duplicated() == old(store.Duplicated())
      ensures |inbox.future| <= |old(inbox.future)|
      ensures !startsHeld || (final && inbox.ring.size == 0 && leftover > 0) ==>
                BurstTaken(|old(inbox.future)|, |inbox.future|)
      ensures RewritesSince(store.replays, old(store.replays), offline, old(clock.looks), clock.looks)
      ensures old(Unhindered()) && offline && old(store.file) != [] && clock.world(old(clock.looks) + 3).disk ==>
                ReplaysAll(store.replays, old(store.replays), old(clock.looks) + 3,
                           Total(old(Lines(store.file)), codec.count))
      ensures startsHeld && !ClosingSettles(final, at) ==>
                Untouched(old(inbox.ring.Contents()), |old(inbox.future)|, old(failed), old(store.file))
                && clock.looks == old(clock.looks) + if final then 3 else 2
      ensures old(Ideally()) ==> Ideally() && !startsHeld && inbox.ring.size == 0 && failed == old(failed)
                                 && store.file == Cleared(offline, old(store.file))
      ensures !final && Jams(old(clock.looks) + 11) && old(poster.limiter.until) == 0 && old(Waiting()) > 0 ==>
                Jammed(old(clock.looks) + 11) && inbox.ring.size == Beyond(old(Waiting()), maxBatch)
    {
      ghost var from, before := clock.looks, store.replays;
      var held := Begin();
      startsHeld := held;
      replayArmed, leftover, at := DrainFrom(held, final);
      NoNewDuplicates(store.replays, before, offline, from, clock.looks, clock.world);
    }

    /** The first look of a drain. */
    method Begin() returns (held: bool)
      requires Valid()
      modifies clock, poster
      ensures Valid() && clock.looks == old(clock.looks) + 1 && poster.acceptedBefore == old(poster.Accepts())
      ensures held == poster.limiter.Blocked(clock.world(old(clock.looks)).now) && (held ==> FoundHeld())
      ensures poster.log == Then(Start, Checked(held)) && poster.watch == Idle
      ensures old(Unhindered()) ==> Unhindered() && !held
      ensures old(Ideally()) ==> Ideally() && !held
      ensures Jams(old(clock.looks) + 1) && poster.limiter.until == 0 ==> !held
    {
      Restart();
      assert Jams(clock.looks + 1) ==> JamAt(clock.world, clock.looks);
      held := AskHold(0);
    }

    ghost method Restart()
      requires Valid()
      modifies poster
      ensures Valid() && poster.log == Start && poster.watch == Idle
      ensures poster.acceptedBefore == old(poster.Accepts()) == poster.Accepts()
    {
      poster.Restart();
    }

    /** The drain behind its first look. */
    method DrainFrom(held: bool, final: bool) returns (ghost replayArmed: bool, ghost leftover: nat, ghost at: nat)
      requires Valid() && poster.log == Then(Start, Checked(held)) && poster.watch == Idle && (held ==> FoundHeld())
      modifies this, clock, poster`log, poster`watch, poster`accepted, poster`heldBy, poster`acceptedBy, poster`retries,
               poster.limiter, store, inbox, inbox.ring, inbox.ring.slots
      ensures Valid() && clock.looks > old(clock.looks) && Extends(old(settled), settled)
      ensures Obeys(poster.watch, replayArmed)
      ensures held ==> NoPosts(poster.log) && !replayArmed && poster.limiter.until == old(poster.limiter.until)
      ensures held ==> leftover == old(inbox.ring.size) && at == old(clock.looks)
      ensures Closes(final, leftover, at)
      ensures |inbox.future| <= |old(inbox.future)|
      ensures !held || (final && inbox.ring.size == 0 && leftover > 0) ==>
                BurstTaken(|old(inbox.future)|, |inbox.future|)
      ensures RewritesSince(store.replays, old(store.replays), offline, old(clock.looks), clock.looks)
      ensures !held && old(Unhindered()) && offline && old(store.file) != []
              && clock.world(old(clock.looks) + 2).disk ==>
                ReplaysAll(store.replays, old(store.replays), old(clock.looks) + 2,
                           Total(old(Lines(store.file)), codec.count))
      ensures held && !ClosingSettles(final, at) ==>
                Untouched(old(inbox.ring.Contents()), |old(inbox.future)|, old(failed), old(store.file))
                && clock.looks == old(clock.looks) + if final then 2 else 1
      ensures !held && old(Ideally()) ==> Ideally() && inbox.ring.size == 0 && failed == old(failed)
                                          && store.file == Cleared(offline, old(store.file))
      ensures !held && !final && Jams(old(clock.looks) + 10) && old(Waiting()) > 0 ==>
                Jammed(old(clock.looks) + 10) && inbox.ring.size == Beyond(old(Waiting()), maxBatch)
    {
      replayArmed := false;
      if held {
        leftover, at := inbox.ring.size, clock.looks;
        DrainHeld(final);
      } else {
        replayArmed, leftover, at := DrainFree(final);
      }
    }

    /** How a drain ends, given its leftover events and the number of its first closing look. */
    ghost predicate Closes(final: bool, leftover: nat, at: nat)
      reads poster.limiter, inbox.ring
    {
      && (leftover > 0 && !Expired(clock.world(at)) ==> at > 0 && poster.limiter.Blocked(clock.world(at - 1).now))
      && (final ==>
            (inbox.ring.size > 0 <==>
             leftover > 0 && !Expired(clock.world(at)) && !poster.limiter.Blocked(clock.world(at + 1).now)))
      && (!final && !Expired(clock.world(at)) ==> inbox.ring.size == leftover)
      && (inbox.ring.size > 0 ==> inbox.ring.size == leftover)
    }

    /** A drain that starts held only looks at the hold once more, and settles or leaves the ring. */
    method DrainHeld(final: bool)
      requires Valid() && NoPosts(poster.log) && poster.watch == Idle && FoundHeld()
      modifies clock, poster`log, poster`watch, store`file, store`spool, inbox, inbox.ring, inbox.ring.slots,
               this`failed, this`vetoed, this`scrubs, this`settled, this`crashAcked, this`batches
      ensures Valid() && NoPosts(poster.log) && !poster.watch.Holding? && clock.looks > old(clock.looks)
      ensures Extends(old(settled), settled) && Closes(final, old(inbox.ring.size), old(clock.looks))
      ensures |inbox.future| <= |old(inbox.future)|
      ensures final && inbox.ring.size == 0 && old(inbox.ring.size) > 0 ==>
                BurstTaken(|old(inbox.future)|, |inbox.future|)
      ensures !ClosingSettles(final, old(clock.looks)) ==>
                Untouched(old(inbox.ring.Contents()), |old(inbox.future)|, old(failed), old(store.file))
                && clock.looks == old(clock.looks) + if final then 2 else 1
    {
      ghost var _ := Finish(final, 0);
    }

    method DrainFree(final: bool) returns (ghost replayArmed: bool, ghost leftover: nat, ghost at: nat)
      requires Valid() && poster.watch == Idle
      modifies this, clock, poster`log, poster`watch, poster`accepted, poster`heldBy, poster`acceptedBy, poster`retries,
               poster.limiter, store, inbox, inbox.ring, inbox.ring.slots
      ensures Valid() && clock.looks > old(clock.looks) && Extends(old(settled), settled)
      ensures Obeys(poster.watch, replayArmed)
      ensures Closes(final, leftover, at)
      ensures BurstTaken(|old(inbox.future)|, |inbox.future|)
      ensures RewritesSince(store.replays, old(store.replays), offline, old(clock.looks), clock.looks)
      ensures old(Unhindered()) && offline && old(store.file) != [] && clock.world(old(clock.looks) + 2).disk ==>
                ReplaysAll(store.replays, old(store.replays), old(clock.looks) + 2,
                           Total(old(Lines(store.file)), codec.count))
      ensures old(Ideally()) ==> Ideally() && inbox.ring.size == 0 && failed == old(failed)
                                 && store.file == Cleared(offline, old(store.file))
      ensures !final && Jams(old(clock.looks) + 10) && old(Waiting()) > 0 ==>
                Jammed(old(clock.looks) + 10) && inbox.ring.size == Beyond(old(Waiting()), maxBatch)
    {
      ghost var jam := clock.looks + 9;
      replayArmed := SendAll();
      leftover, at := inbox.ring.size, clock.looks;
      ghost var _ := Finish(final, jam);
    }

    /** The body of a drain that does not start held; nothing is done once the budget is spent. */
    method SendAll() returns (ghost replayArmed: bool)
      requires Valid() && poster.watch == Idle
      modifies this, clock, poster`log, poster`watch, poster`accepted, poster`heldBy, poster`acceptedBy, poster`retries,
               poster.limiter, store, inbox, inbox.ring, inbox.ring.slots
      ensures Valid() && clock.looks > old(clock.looks) && Extends(old(settled), settled)
      ensures Obeys(poster.watch, replayArmed)
      ensures |inbox.future| <= |old(inbox.future)|
      ensures Expired(clock.world(clock.looks)) || (Stopped() && BurstTaken(|old(inbox.future)|, |inbox.future|))
      ensures RewritesSince(store.replays, old(store.replays), offline, old(clock.looks), clock.looks)
      ensures old(Unhindered()) && offline && old(store.file) != [] && clock.world(old(clock.looks) + 2).disk ==>
                ReplaysAll(store.replays, old(store.replays), old(clock.looks) + 2,
                           Total(old(Lines(store.file)), codec.count))
      ensures old(Ideally()) ==> Ideally() && inbox.ring.size == 0 && failed == old(failed)
                                 && store.file == Cleared(offline, old(store.file))
      ensures Jams(old(clock.looks) + 9) && old(Waiting()) > 0 ==>
                Jammed(old(clock.looks) + 9) && inbox.ring.size == Beyond(old(Waiting()), maxBatch)
    {
      replayArmed := false;
      var spent := BudgetSpent(clock.looks + 9);
      if !spent {
        replayArmed := ReplayAndSend();
      }
    }

    // --------------------------------------------------------------------- run

    /** The drains before shutdown. Unless some reply asks for a hold, each takes in a burst. */
    method Rounds(rounds: nat)
      requires Valid()
      modifies this, clock, poster, poster.limiter, store, inbox, inbox.ring, inbox.ring.slots
      ensures Valid() && clock.looks >= old(clock.looks) && Extends(old(settled), settled)
      ensures SomeHold(clock.world) || inbox.future == [] || inbox.Landed() >= old(inbox.Landed()) + rounds
      ensures !offline || Healthy(clock.world, old(clock.looks), clock.looks) ==>
                store.Duplicated() == old(store.Duplicated())
      ensures |inbox.future| <= |old(inbox.future)|
      ensures old(Ideally()) ==> Ideally() && failed == old(failed)
                                 && (inbox.future == [] || inbox.Landed() >= old(inbox.Landed()) + rounds)
                                 && Cleared(offline, store.file) == Cleared(offline, old(store.file))
    {
      var i := 0;
      while i < rounds
        invariant 0 <= i <= rounds && Valid() && clock.looks >= old(clock.looks) && Extends(old(settled), settled)
        invariant SomeHold(clock.world) || inbox.future == [] || inbox.Landed() >= old(inbox.Landed()) + i
        invariant !offline || Healthy(clock.world, old(clock.looks), clock.looks) ==>
                    store.Duplicated() == old(store.Duplicated())
        invariant |inbox.future| <= |old(inbox.future)|
        invariant old(Ideally()) ==> Ideally() && failed == old(failed)
                                     && (inbox.future == [] || inbox.Landed() >= old(inbox.Landed()) + i)
                                     && Cleared(offline, store.file) == Cleared(offline, old(store.file))
      {
        ghost var mid := clock.looks;
        HeldMeansAsked();
        ghost var _, _, _, _ := Drain(false);
        HealthyParts(clock.world, old(clock.looks), mid, clock.looks);
        i := i + 1;
      }
    }

    /** There is a hold only if a reply that was received asked for it. */
    lemma HeldMeansAsked()
      requires Valid()
      ensures poster.limiter.until > 0 ==> poster.heldBy.Some? && SomeHold(clock.world)
    {
      if poster.heldBy.Some? {
        assert Named(poster.heldBy.value);
      }
    }

    /** The sender thread: drains until told to stop, then one final drain. At its end every event
        that landed, and every event the file held at the start, is accounted for; what is counted
        as sent was accepted; and the crash record is gone exactly if there is a path and a run with
        a crash event was accepted or appended. Unless some reply asked for a hold, each drain takes
        in a burst and the ring ends up empty. And if from its start on nothing goes wrong, then
        nothing is lost and nothing is left, neither in the ring nor on disk. */
    method Run(rounds: nat)
      requires Valid()
      modifies this, clock, poster, poster.limiter, store, inbox, inbox.ring, inbox.ring.slots
      ensures Valid() && clock.looks > old(clock.looks) && Extends(old(settled), settled)
      ensures inbox.ring.size > 0 ==> poster.heldBy.Some? && SomeHold(clock.world)
      ensures SomeHold(clock.world) || inbox.future == [] || inbox.Landed() > old(inbox.Landed()) + rounds
      ensures !offline || Healthy(clock.world, old(clock.looks), clock.looks) ==>
                store.Duplicated() == old(store.Duplicated())
      ensures |inbox.future| <= |old(inbox.future)|
      ensures Size(inbox.arrivals[..inbox.Landed()]) + Total(store.lines0, codec.count) + store.Duplicated()
           == inbox.ring.size + inbox.ring.dropped + vetoed + sent + failed + store.OnDisk()
      ensures sent == poster.Accepts() && (sent > 0 ==> poster.acceptedBy.Some?)
      ensures crashAcked <==> offline && SomeHands(settled, codec.crash)
      ensures old(Ideally()) ==> inbox.ring.size == 0 && failed == old(failed)
                                 && store.file == Cleared(offline, old(store.file))
                                 && (inbox.future == [] || inbox.Landed() > old(inbox.Landed()) + rounds)
    {
      Rounds(rounds);
      ghost var mid := clock.looks;
      LastDrain();
      HealthyParts(clock.world, old(clock.looks), mid, clock.looks);
      Conservation();
    }

    /** From the moment on when nothing goes wrong any more nothing is lost: what waits in the ring or
        on disk, and every event still to be captured, is sent, but for those that the callback vetoes
        or a full ring drops. */
    method Reconnect(rounds: nat)
      requires Valid() && Ideally() && rounds >= |inbox.future|
      modifies this, clock, poster, poster.limiter, store, inbox, inbox.ring, inbox.ring.slots
      ensures Valid() && inbox.ring.size == 0 && inbox.future == [] && failed == old(failed)
      ensures store.file == Cleared(offline, old(store.file)) && store.Duplicated() == old(store.Duplicated())
      ensures (sent + vetoed + inbox.ring.dropped) - old(sent + vetoed + inbox.ring.dropped)
           == old(inbox.ring.size) + Size(old(inbox.future)) + (if offline then old(store.OnDisk()) else 0)
    {
      inbox.Supply();
      LinesOfNothing();
      Run(rounds);
      WorkingIsHealthy(clock.world, old(clock.looks), clock.looks);
      inbox.Supply();
    }

    /** The drain at shutdown. */
    method LastDrain()
      requires Valid()
      modifies this, clock, poster, poster.limiter, store, inbox, inbox.ring, inbox.ring.slots
      ensures Valid() && clock.looks > old(clock.looks) && Extends(old(settled), settled)
      ensures inbox.ring.size > 0 ==> poster.heldBy.Some? && SomeHold(clock.world)
      ensures SomeHold(clock.world) || BurstTaken(|old(inbox.future)|, |inbox.future|)
      ensures !offline || Healthy(clock.world, old(clock.looks), clock.looks) ==>
                store.Duplicated() == old(store.Duplicated())
      ensures |inbox.future| <= |old(inbox.future)|
      ensures old(Ideally()) ==> inbox.ring.size == 0 && failed == old(failed)
                                 && store.file == Cleared(offline, old(store.file))
                                 && BurstTaken(|old(inbox.future)|, |inbox.future|)
    {
      HeldMeansAsked();
      ghost var _, startsHeld, leftover, at := Drain(true);
      HeldMeansAsked();
    }

    // -------------------------------------------------------------------- laws

    /** What every reachable state keeps: the events that landed, and those the file held at the
        start, are queued, dropped, vetoed, sent, lost or on disk, but for the duplicates. */
    lemma Conservation()
      requires Valid()
      ensures Size(inbox.arrivals[..inbox.Landed()]) + Total(store.lines0, codec.count) + store.Duplicated()
           == inbox.ring.size + inbox.ring.dropped + vetoed + sent + failed + store.OnDisk()
      ensures sent == poster.Accepts() && (sent > 0 ==> poster.acceptedBy.Some?)
      ensures crashAcked <==> offline && SomeHands(settled, codec.crash)
    {
      inbox.Supply();
    }

    /** The conservation law fails exactly when some rewrite of the spill file failed, at the look
        that decided it, after lines with events in them had been settled. */
    lemma ConservationExactly()
      requires Valid()
      ensures |inbox.ring.pushed| + Total(store.lines0, codec.count)
              == inbox.ring.size + inbox.ring.dropped + vetoed + sent + failed + store.OnDisk()
         <==> !LostRewrite(store.replays, clock.world)
    {
      DuplicatesIffLost(store.replays, clock.world);
    }

    /** Whatever was settled was captured: it is the scrubbed form of a captured event, or, without
        a path, that event itself. */
    lemma SettledWasCaptured(e: E) returns (n: nat, p: E)
      requires Valid() && e in Runs(settled)
      ensures p in Flatten(inbox.arrivals[..inbox.Landed()]) && inbox.fit(p) && FormOf(e, p, n, codec.scrub, offline)
    {
      HandledFrom(batches, codec.scrub, e);
      n, p :| p in PoppedIn(batches) && FormOf(e, p, n, codec.scrub, AllScrubbed(batches));
      inbox.PoppedWasCaptured(p);
    }

    /** The events that left the ring were settled in order, each once, but for the vetoed ones: the
        settled runs, one behind the other, are the batches popped, scrubbed, one behind the other;
        and each run has one fate. */
    lemma SettledInOrder()
      requires Valid()
      ensures Runs(settled) == Handled(batches, codec.scrub) && inbox.popped == PoppedIn(batches)
      ensures CountOf(settled, Sent) + CountOf(settled, Spilled) + CountOf(settled, Failed)
              == |Handled(batches, codec.scrub)|
      ensures offline ==> AllScrubbed(batches)
    {
      FatesCover(settled);
    }

    /** The crash record goes only when a crash event that was captured has been handed over: p is
        the capture, e its scrubbed form, and run i of the settled ones, with e in it, was accepted
        or appended. */
    lemma CrashHandedOver() returns (i: nat, e: E, n: nat, p: E)
      requires Valid() && crashAcked
      ensures offline && i < |settled| && e in settled[i].run && codec.crash(e) && settled[i].fate != Failed
      ensures codec.body(settled[i].run) in if settled[i].fate == Sent then poster.accepted else Appended(store.spool)
      ensures p in Flatten(inbox.arrivals[..inbox.Landed()]) && codec.crash(p) && codec.scrub(n, p) == Some(e)
    {
      i :| 0 <= i < |settled| && Hands(settled[i], codec.crash);
      HasCrashMeans(settled[i].run, codec.crash);
      var j :| 0 <= j < |settled[i].run| && codec.crash(settled[i].run[j]);
      e := settled[i].run[j];
      RunsHold(settled, i, e);
      n, p := SettledWasCaptured(e);
      assert Truthful(settled[i], poster.accepted, Appended(store.spool), codec.body);
    }

    /** The spill file is a byte-bounded queue over every run: its lines are the newest of those it
        held at the start followed by the bodies appended, in order. */
    lemma SpillIsFifo() returns (gone: nat)
      requires Valid()
      ensures gone <= |Journal(store.spool, store.lines0)|
              && Lines(store.file) == Journal(store.spool, store.lines0)[gone..]
      ensures Terminated(store.file) && |store.file| <= store.limit
    {
      gone := LeftIsSuffix(store.spool, store.lines0);
    }
  }

  /** What a sender starts with. */
  method NewSender<E(0,!new)>(codec: Codec<E>, ghost fit: E -> bool, offline: bool, maxBatch: nat, maxBatchBytes: int,
                              maxRetries: int, maxQueue: int, world: nat -> World, captures: seq<seq<E>>, file: bytes)
    returns (s: Sender<E>)
    requires CodecOk(codec, fit) && maxBatch > 0 && Terminated(file) && StaysExpired(world)
    requires forall i | 0 <= i < |captures| :: AllFit(captures[i], fit)
    ensures fresh(s) && fresh(s.clock) && fresh(s.poster) && fresh(s.poster.limiter) && fresh(s.store)
    ensures fresh(s.inbox) && fresh(s.inbox.ring) && fresh(s.inbox.ring.slots)
    ensures s.Valid() && s.codec == codec && s.offline == offline && s.maxBatch == maxBatch
    ensures s.clock.world == world && s.clock.looks == 0 && s.poster.limiter.until == 0
    ensures s.poster.maxBatchBytes == maxBatchBytes && s.poster.maxRetries == maxRetries
    ensures s.store.file == file && s.store.lines0 == Lines(file) && s.store.replays == NoRewrite
    ensures s.store.limit == if |file| > MAX_BYTES then |file| else MAX_BYTES
    ensures s.inbox.fit == fit && s.inbox.future == s.inbox.arrivals == captures
    ensures s.inbox.ring.size == s.inbox.ring.dropped == |s.inbox.ring.pushed| == 0
    ensures s.inbox.ring.slots.Length == if maxQueue < Ring.MIN_CAP then Ring.MIN_CAP else maxQueue
    ensures s.sent == s.failed == s.vetoed == 0 && !s.crashAcked && s.settled == [] && s.batches == NoBatch
  {
    var clock := new Clock(world);
    var inbox := new Inbox(maxQueue, captures, fit);
    var poster := new Poster(clock, maxBatchBytes, maxRetries, codec.count);
    var store := new Store(clock, offline, codec.count, file);
    s := new Sender(codec, offline, maxBatch, clock, inbox, poster, store);
  }
}
