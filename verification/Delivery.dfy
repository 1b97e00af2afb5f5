/** What the sender sees of the outside world, and the history its laws speak of. */
module Delivery {
  import opened Bytes
  import opened Options
  import opened SpillFile
  import RateLimit

  // ------------------------------------------------------------- the codec

  /** What the sender needs to know of event records: the body of a run, the recount of a
      line, the privacy scrub (None is a veto), and the crash-replay mark. The scrub is given the
      number of its call, since the callback in it may answer differently each time. */
  datatype Codec<!E> = Codec(
    body: seq<E> -> bytes, count: bytes -> nat, scrub: (nat, E) -> Option<E>, crash: E -> bool)

  ghost predicate AllFit<E>(evs: seq<E>, fit: E -> bool) {
    forall i | 0 <= i < |evs| :: fit(evs[i])
  }

  /** The codec contract: the body of fit events is one line that recounts as those events, and the
      scrub keeps fit events fit, and their marks. */
  ghost predicate CodecOk<E(!new)>(c: Codec<E>, fit: E -> bool) {
    && (forall evs {:trigger c.body(evs)} | AllFit(evs, fit) :: OneLine(c.body(evs)) && c.count(c.body(evs)) == |evs|)
    && (forall n, e {:trigger c.scrub(n, e)} | fit(e) && c.scrub(n, e).Some? ::
          fit(c.scrub(n, e).value) && c.crash(c.scrub(n, e).value) == c.crash(e))
  }

  datatype Reply = Reply(status: int, retryAfter: RateLimit.RetryAfter, quota: bool)

  /** One look at the world: the clocks, the shutdown state, and what would become of an
      allocation, a disk operation or a POST made now. */
  datatype World = World(
    now: nat, wall: nat, stop: bool, deadline: nat,
    oom: bool, disk: bool, transport: bool, reply: Reply)

  /** The shutdown budget is spent. A zero deadline means normal operation. */
  predicate Expired(w: World) {
    w.stop && w.deadline != 0 && w.now >= w.deadline
  }

  predicate Later(i: nat, j: nat) {
    i <= j
  }

  /** Shutdown, once its budget is spent, stays spent at every later look. */
  ghost predicate StaysExpired(world: nat -> World) {
    forall i, j {:trigger Later(i, j)} | Later(i, j) && Expired(world(i)) :: Expired(world(j))
  }

  /** Less than a millisecond of the shutdown budget is left, so no POST is started. */
  predicate NoTimeToPost(w: World) {
    w.stop && w.deadline != 0 && (w.now >= w.deadline || (w.deadline - w.now) / 1_000_000 == 0)
  }

  predicate Delivered(status: int) {
    200 <= status < 300
  }

  /** A client error that neither a retry nor a replay can change. */
  predicate PermanentReject(status: int) {
    400 <= status < 500 && status != 408 && status != 429
  }

  /** The hold that a reply asks for, or -1: a throttling status, or a quota notice on success. */
  function AskedWindow(r: Reply, wall: nat): (w: int)
    ensures w >= -1
  {
    if Delivered(r.status) then (if r.quota then RateLimit.DEFAULT_MS else -1)
    else RateLimit.Window(r.status, r.retryAfter, wall)
  }

  predicate AsksHold(world: nat -> World, i: nat) {
    AskedWindow(world(i).reply, world(i + 1).wall) >= 0
  }

  /** A POST can be made at this look: there is a transport, and time. */
  predicate CanPost(w: World) {
    w.transport && !NoTimeToPost(w)
  }

  /** Some reply asks for a hold; without one the sender is never held. */
  ghost predicate SomeHold(world: nat -> World) {
    exists i: nat :: CanPost(world(i)) && AsksHold(world, i)
  }

  /** A handle on a look; it only guides instantiation. */
  predicate Named(i: nat) {
    0 <= i
  }

  /** The hold is on, or was, only if a received reply asked for one, at look heldBy; events count
      as accepted only if a received reply accepted a body, at look acceptedBy. */
  ghost predicate Grounded(until: nat, log: Log, accepted: nat, heldBy: Option<nat>, acceptedBy: Option<nat>,
                           world: nat -> World)
  {
    && (until > 0 || EverHeld(log) ==> heldBy.Some?)
    && (accepted > 0 ==> acceptedBy.Some?)
    && (forall i: nat {:trigger Named(i)} | Named(i) && heldBy == Some(i) :: CanPost(world(i)) && AsksHold(world, i))
    && (forall i: nat {:trigger Named(i)} | Named(i) && acceptedBy == Some(i) ::
          CanPost(world(i)) && Delivered(world(i).reply.status))
  }

  /** From look n on every POST is made and accepted, plainly, and a hold that ends at until is over. */
  ghost predicate SmoothFrom(world: nat -> World, n: nat, until: nat) {
    forall i: nat {:trigger SmoothAt(world, i, until)} | n <= i :: SmoothAt(world, i, until)
  }

  predicate SmoothAt(world: nat -> World, i: nat, until: nat) {
    PlainlyAccepts(world(i)) && until <= world(i).now
  }

  predicate PlainlyAccepts(w: World) {
    CanPost(w) && Delivered(w.reply.status) && !w.reply.quota
  }

  /** From look n on the disk obeys and memory suffices. */
  ghost predicate WorksFrom(world: nat -> World, n: nat) {
    forall i: nat {:trigger WorksAt(world, i)} | n <= i :: WorksAt(world, i)
  }

  predicate WorksAt(world: nat -> World, i: nat) {
    world(i).disk && !world(i).oom
  }

  /** The first n looks find a server that throttles, at time zero. */
  ghost predicate JamUntil(world: nat -> World, n: nat) {
    forall i: nat {:trigger JamAt(world, i)} | i < n :: JamAt(world, i)
  }

  predicate JamAt(world: nat -> World, i: nat) {
    var w := world(i);
    w.transport && !w.stop && !w.oom && w.now == 0 && w.reply == Reply(429, RateLimit.Absent, false)
  }

  /** When such a server's hold ends. */
  const HOLD: nat := RateLimit.HoldUntil(RateLimit.DEFAULT_MS, 0)

  lemma HoldPositive()
    ensures HOLD > 0
  {
  }

  /** When the hold ends that a reply asks for, noted at this look. */
  function Deadline(r: Reply, at: World): nat {
    var w := AskedWindow(r, at.wall);
    if w < 0 then 0 else RateLimit.HoldUntil(w, at.now)
  }

  /** When the hold ends that the reply received at look i asks for. */
  function HeldUntil(world: nat -> World, i: nat): nat {
    Deadline(world(i).reply, world(i + 1))
  }

  /** A reply whose backpressure is looked into, at one more look at the clocks. */
  predicate Noted(r: Reply) {
    r.status == 429 || r.status == 503 || (Delivered(r.status) && r.quota)
  }

  /** A status after which neither delivery nor rejection is settled. */
  predicate Retryable(status: int) {
    !Delivered(status) && !PermanentReject(status)
  }

  // -------------------------------------------------------------- the hold

  /** What a drain does that concerns the hold. */
  datatype Obs = Posted(body: bytes, status: int, arms: bool) | Checked(held: bool)

  /** The first arming response and what followed: how many POSTs, and whether a later
      look at the hold found it over. */
  datatype Watch = Idle | Holding(posts: nat) | Lapsed

  function Observe(w: Watch, o: Obs): Watch {
    match w
    case Idle => if o.Posted? && o.arms then Holding(0) else Idle
    case Holding(n) => if o.Posted? then Holding(n + 1) else if o.held then w else Lapsed
    case Lapsed => Lapsed
  }

  /** What a drain has done so far, newest last. */
  datatype Log = Start | Then(before: Log, last: Obs)

  function WatchOf(log: Log): Watch {
    match log
    case Start => Idle
    case Then(before, o) => Observe(WatchOf(before), o)
  }

  function PostCount(log: Log): nat {
    if log.Start? then 0 else PostCount(log.before) + if log.last.Posted? then 1 else 0
  }

  /** The events in bodies that got a 2xx, as the recount counts them. */
  function AcceptedEvents(log: Log, count: bytes -> nat): nat {
    if log.Start? then 0
    else
      AcceptedEvents(log.before, count)
      + if log.last.Posted? && Delivered(log.last.status) then count(log.last.body) else 0
  }

  predicate PostWithin(o: Obs, cap: int) {
    o.Posted? && cap > 0 ==> |o.body| <= cap
  }

  predicate PostsWithin(log: Log, cap: int) {
    log.Then? ==> PostsWithin(log.before, cap) && PostWithin(log.last, cap)
  }

  predicate NoPosts(log: Log) {
    log.Then? ==> NoPosts(log.before) && log.last.Checked?
  }

  /** No POST was made since, so a hold armed before either lapsed or is as it was. */
  predicate HoldKept(w0: Watch, log0: Log, w: Watch, log: Log) {
    (w.Holding? ==> w == w0) && (NoPosts(log0) ==> NoPosts(log)) && PostCount(log) == PostCount(log0)
  }

  /** How one POST cycle may move the watch; held is its answer to the caller. */
  predicate CycleStep(a: Watch, b: Watch, held: bool) {
    match a
    case Idle => b.Idle? || b.Lapsed? || (b == Holding(0) && held)
    case Holding(n) => b.Lapsed? || (held && (b == Holding(n) || b == Holding(n + 1)))
    case Lapsed => b.Lapsed?
  }

  /** The same for a run of events, which may also make no POST at all. */
  predicate RunStep(a: Watch, b: Watch, held: bool) {
    CycleStep(a, b, held) || a == b
  }

  lemma RunStepsCompose(a: Watch, b: Watch, c: Watch, held: bool)
    requires RunStep(a, b, false) && RunStep(b, c, held)
    ensures RunStep(a, c, held)
  {
  }

  /** The same before the cycle's closing look at the hold. */
  predicate TryStep(a: Watch, b: Watch) {
    match a
    case Idle => b.Idle? || b.Lapsed? || b == Holding(0)
    case Holding(n) => b.Lapsed? || b == Holding(n) || b == Holding(n + 1)
    case Lapsed => b.Lapsed?
  }

  /** The watch after a failed attempt that did not find the hold on. */
  predicate Unheld(a: Watch, b: Watch) {
    b.Lapsed? || (a.Idle? && b.Idle?)
  }

  /** How a drain obeys the hold: while an armed hold does not lapse, at most one POST follows the
      arming response, and none if it was not the replay's. */
  predicate Obeys(w: Watch, replayArmed: bool) {
    w.Holding? ==> w.posts <= 1 && (!replayArmed ==> w.posts == 0)
  }

  /** A replay and then the queue, each as one try. */
  lemma ReplayThenQueueObeys(a: Watch, b: Watch)
    requires TryStep(Idle, a) && TryStep(a, b)
    ensures Obeys(b, a.Holding?)
  {
  }

  /** A look at the hold after the last attempt. */
  lemma TryThenLook(a: Watch, b: Watch, held: bool)
    requires TryStep(a, b)
    ensures TryStep(a, Observe(b, Checked(held))) && (!held ==> Unheld(a, Observe(b, Checked(held))))
  {
  }

  /** Some POST of this body was accepted. */
  predicate Accepted(log: Log, body: bytes) {
    log.Then? && (Accepted(log.before, body)
                  || (log.last.Posted? && log.last.body == body && Delivered(log.last.status)))
  }

  lemma RunThenTry(a: Watch, b: Watch, held: bool)
    requires RunStep(a, b, held)
    ensures TryStep(a, b)
  {
  }

  /** The hold was on at one look and over at the next, with no POST between. */
  predicate EndsHeld(log: Log) {
    log.Then? && log.last == Checked(true)
  }

  predicate EverHeld(log: Log) {
    log.Then? && (EverHeld(log.before) || log.last == Checked(true))
  }

  // -------------------------------------------------------------- rewrites

  /** The rewrites of the spill file, newest last: the look that decided each, and the events of
      the lines it was to remove. */
  datatype Rewrites = NoRewrite | AndThen(before: Rewrites, at: nat, events: nat)

  /** The events left on disk although they were settled. */
  function Duplicates(rs: Rewrites, world: nat -> World): nat {
    if rs.NoRewrite? then 0
    else Duplicates(rs.before, world) + if world(rs.at).disk then 0 else rs.events
  }

  /** Some rewrite failed that was to remove events. */
  predicate LostRewrite(rs: Rewrites, world: nat -> World) {
    rs.AndThen? && (LostRewrite(rs.before, world) || (!world(rs.at).disk && rs.events > 0))
  }

  lemma {:induction false} DuplicatesIffLost(rs: Rewrites, world: nat -> World)
    ensures Duplicates(rs, world) > 0 <==> LostRewrite(rs, world)
  {
    if rs.AndThen? {
      DuplicatesIffLost(rs.before, world);
    }
  }

  /** At most one rewrite was tried since, and only with a path. */
  predicate RewritesSince(now: Rewrites, before: Rewrites, offline: bool, from: nat, to: nat) {
    now == before || (offline && now.AndThen? && now.before == before && from <= now.at < to)
  }

  /** A rewrite was tried that was to remove that many events, decided after look number read. */
  predicate ReplaysAll(now: Rewrites, before: Rewrites, read: nat, events: nat) {
    now.AndThen? && now.before == before && read < now.at && now.events == events
  }

  ghost predicate Healthy(world: nat -> World, from: nat, to: nat) {
    forall i: nat | from <= i < to :: world(i).disk
  }

  lemma HealthyParts(world: nat -> World, from: nat, mid: nat, to: nat)
    requires from <= mid <= to
    ensures Healthy(world, from, to) ==> Healthy(world, from, mid) && Healthy(world, mid, to)
  {
  }

  /** Without a path, or on a disk that worked throughout, there are no new duplicates. */
  lemma NoNewDuplicates(now: Rewrites, before: Rewrites, offline: bool, from: nat, to: nat, world: nat -> World)
    requires RewritesSince(now, before, offline, from, to)
    ensures !offline || Healthy(world, from, to) ==> Duplicates(now, world) == Duplicates(before, world)
  {
  }

  // ------------------------------------------------------------- the scrub

  /** The batch without the vetoed events, the others scrubbed and in order, by calls n and on. */
  function Kept<E>(evs: seq<E>, scrub: (nat, E) -> Option<E>, n: nat): (r: seq<E>)
    ensures |r| <= |evs|
  {
    if evs == [] then []
    else
      var r := scrub(n, evs[0]);
      (if r.Some? then [r.value] else []) + Kept(evs[1..], scrub, n + 1)
  }

  /** A scrub of evs, begun at call n0, stands before call n: out is kept so far, rest is to come. */
  ghost predicate Scrubbing<E(!new)>(evs: seq<E>, n0: nat, out: seq<E>, rest: seq<E>, n: nat, c: Codec<E>,
                                     fit: E -> bool)
  {
    && out + Kept(rest, c.scrub, n) == Kept(evs, c.scrub, n0) && n + |rest| == n0 + |evs|
    && AllFit(out, fit) && AllFit(rest, fit)
  }

  lemma ScrubStarts<E(!new)>(evs: seq<E>, n: nat, c: Codec<E>, fit: E -> bool)
    requires AllFit(evs, fit)
    ensures Scrubbing(evs, n, [], evs, n, c, fit)
  {
    assert [] + Kept(evs, c.scrub, n) == Kept(evs, c.scrub, n);
  }

  lemma ScrubNext<E(!new)>(evs: seq<E>, n0: nat, out: seq<E>, rest: seq<E>, n: nat, c: Codec<E>, fit: E -> bool)
    requires Scrubbing(evs, n0, out, rest, n, c, fit) && rest != [] && CodecOk(c, fit)
    ensures var r := c.scrub(n, rest[0]);
            Scrubbing(evs, n0, if r.Some? then out + [r.value] else out, rest[1..], n + 1, c, fit)
  {
    var r := c.scrub(n, rest[0]);
    ConcatAssoc(out, if r.Some? then [r.value] else [], Kept(rest[1..], c.scrub, n + 1));
    assert out + [] == out;
  }

  lemma ScrubEnds<E(!new)>(evs: seq<E>, n0: nat, out: seq<E>, n: nat, c: Codec<E>, fit: E -> bool)
    requires Scrubbing(evs, n0, out, [], n, c, fit)
    ensures out == Kept(evs, c.scrub, n0) && AllFit(out, fit) && n == n0 + |evs|
  {
    assert out + [] == out;
  }

  /** What is kept is the scrubbed form of one of the events. */
  lemma {:induction false} KeptFrom<E>(evs: seq<E>, scrub: (nat, E) -> Option<E>, n: nat, e: E)
    requires e in Kept(evs, scrub, n)
    ensures exists i, p :: p in evs && scrub(i, p) == Some(e)
    decreases |evs|
  {
    if e in Kept(evs[1..], scrub, n + 1) {
      KeptFrom(evs[1..], scrub, n + 1, e);
      var i, p :| p in evs[1..] && scrub(i, p) == Some(e);
      assert p in evs;
    } else {
      assert evs[0] in evs && scrub(n, evs[0]) == Some(e);
    }
  }

  /** No event is ever vetoed. */
  ghost predicate KeepsAll<E(!new)>(c: Codec<E>) {
    forall n, e {:trigger c.scrub(n, e)} :: c.scrub(n, e).Some?
  }

  lemma KeptAny<E(!new)>(evs: seq<E>, c: Codec<E>, n: nat)
    requires KeepsAll(c) && evs != []
    ensures Kept(evs, c.scrub, n) != []
  {
    assert c.scrub(n, evs[0]).Some?;
  }

  // ---------------------------------------------------------------- batches

  /** The batches that left the ring, newest last. Each was scrubbed, from call number first on, or
      lost as it was. */
  datatype Batches<E> = NoBatch | Batch(before: Batches<E>, evs: seq<E>, first: Option<nat>)

  function PoppedIn<E>(bs: Batches<E>): seq<E> {
    if bs.NoBatch? then [] else PoppedIn(bs.before) + bs.evs
  }

  /** What was left to settle of a batch. */
  function Remains<E>(evs: seq<E>, first: Option<nat>, scrub: (nat, E) -> Option<E>): seq<E> {
    if first.Some? then Kept(evs, scrub, first.value) else evs
  }

  function Handled<E>(bs: Batches<E>, scrub: (nat, E) -> Option<E>): seq<E> {
    if bs.NoBatch? then [] else Handled(bs.before, scrub) + Remains(bs.evs, bs.first, scrub)
  }

  predicate AllScrubbed<E>(bs: Batches<E>) {
    bs.Batch? ==> bs.first.Some? && AllScrubbed(bs.before)
  }

  /** An event handled is the scrubbed form of one that left the ring, or that one unscrubbed. */
  lemma {:induction false} HandledFrom<E>(bs: Batches<E>, scrub: (nat, E) -> Option<E>, e: E)
    requires e in Handled(bs, scrub)
    ensures exists i, p :: p in PoppedIn(bs) && FormOf(e, p, i, scrub, AllScrubbed(bs))
  {
    if e in Handled(bs.before, scrub) {
      HandledFrom(bs.before, scrub, e);
      var i, p :| p in PoppedIn(bs.before) && FormOf(e, p, i, scrub, AllScrubbed(bs.before));
      assert p in PoppedIn(bs) && FormOf(e, p, i, scrub, AllScrubbed(bs));
    } else if bs.first.Some? {
      KeptFrom(bs.evs, scrub, bs.first.value, e);
      var i, p :| p in bs.evs && scrub(i, p) == Some(e);
      assert p in PoppedIn(bs) && FormOf(e, p, i, scrub, AllScrubbed(bs));
    } else {
      assert e in PoppedIn(bs) && FormOf(e, e, 0, scrub, AllScrubbed(bs));
    }
  }

  /** The scrub's call number i made e of p, or, where not all is scrubbed, e is p. */
  ghost predicate FormOf<E>(e: E, p: E, i: nat, scrub: (nat, E) -> Option<E>, scrubbed: bool) {
    scrub(i, p) == Some(e) || (!scrubbed && e == p)
  }

  // ------------------------------------------------------------- outcomes

  datatype Fate = Sent | Spilled | Failed

  datatype Outcome<E> = Outcome(run: seq<E>, fate: Fate)

  function Runs<E>(os: seq<Outcome<E>>): seq<E> {
    if os == [] then [] else os[0].run + Runs(os[1..])
  }

  function CountOf<E>(os: seq<Outcome<E>>, f: Fate): nat {
    if os == [] then 0 else (if os[0].fate == f then |os[0].run| else 0) + CountOf(os[1..], f)
  }

  lemma {:induction false} OutcomesAppend<E>(a: seq<Outcome<E>>, b: seq<Outcome<E>>, f: Fate)
    ensures Runs(a + b) == Runs(a) + Runs(b)
    ensures CountOf(a + b, f) == CountOf(a, f) + CountOf(b, f)
    decreases |a|
  {
    if a == [] {
      assert a + b == b;
    } else {
      assert (a + b)[1..] == a[1..] + b;
      OutcomesAppend(a[1..], b, f);
    }
  }

  lemma OutcomeOne<E>(o: Outcome<E>, f: Fate)
    ensures Runs([o]) == o.run
    ensures CountOf([o], f) == if o.fate == f then |o.run| else 0
  {
    assert [o][1..] == [];
    assert o.run + [] == o.run;
  }

  lemma {:induction false} FatesCover<E>(os: seq<Outcome<E>>)
    ensures CountOf(os, Sent) + CountOf(os, Spilled) + CountOf(os, Failed) == |Runs(os)|
    decreases |os|
  {
    if os != [] {
      FatesCover(os[1..]);
    }
  }

  predicate HasCrash<E>(evs: seq<E>, crash: E -> bool) {
    evs != [] && (crash(evs[0]) || HasCrash(evs[1..], crash))
  }

  lemma {:induction false} HasCrashMeans<E>(evs: seq<E>, crash: E -> bool)
    ensures HasCrash(evs, crash) <==> exists i | 0 <= i < |evs| :: crash(evs[i])
    decreases |evs|
  {
    if evs != [] {
      HasCrashMeans(evs[1..], crash);
      assert forall i | 1 <= i < |evs| :: evs[i] == evs[1..][i - 1];
    }
  }

  /** A run with a crash event in it was accepted or durably stored. */
  predicate Hands<E>(o: Outcome<E>, crash: E -> bool) {
    o.fate != Failed && HasCrash(o.run, crash)
  }

  ghost predicate SomeHands<E>(os: seq<Outcome<E>>, crash: E -> bool) {
    exists i | 0 <= i < |os| :: Hands(os[i], crash)
  }

  lemma SomeHandsSnoc<E>(os: seq<Outcome<E>>, o: Outcome<E>, crash: E -> bool)
    ensures SomeHands(os + [o], crash) <==> SomeHands(os, crash) || Hands(o, crash)
  {
    if SomeHands(os, crash) {
      var i :| 0 <= i < |os| && Hands(os[i], crash);
      assert Hands((os + [o])[i], crash);
    }
    if Hands(o, crash) {
      assert Hands((os + [o])[|os|], crash);
    }
  }

  lemma {:induction false} RunsHold<E>(os: seq<Outcome<E>>, i: nat, e: E)
    requires i < |os| && e in os[i].run
    ensures e in Runs(os)
    decreases i
  {
    if i > 0 {
      RunsHold(os[1..], i - 1, e);
    }
  }

  /** The books of the batches: what was settled is what they left to settle, in order, each event
      once; with a spill path every batch was scrubbed. */
  ghost predicate Accounts<E>(os: seq<Outcome<E>>, bs: Batches<E>, scrub: (nat, E) -> Option<E>, offline: bool) {
    Runs(os) == Handled(bs, scrub) && (offline ==> AllScrubbed(bs))
  }

  lemma AccountsGrow<E>(os: seq<Outcome<E>>, more: seq<Outcome<E>>, bs: Batches<E>, evs: seq<E>, first: Option<nat>,
                        scrub: (nat, E) -> Option<E>, offline: bool)
    requires Accounts(os, bs, scrub, offline) && Runs(more) == Remains(evs, first, scrub) && (offline ==> first.Some?)
    ensures Accounts(os + more, Batch(bs, evs, first), scrub, offline)
  {
    OutcomesAppend(os, more, Sent);
  }

  /** A run booked as sent had its body accepted; one booked as spilled had it appended. */
  ghost predicate Truthful<E>(o: Outcome<E>, accepted: set<bytes>, appended: set<bytes>, body: seq<E> -> bytes) {
    && (o.fate == Sent ==> body(o.run) in accepted)
    && (o.fate == Spilled ==> body(o.run) in appended)
  }

  ghost predicate AllTruthful<E>(os: seq<Outcome<E>>, accepted: set<bytes>, appended: set<bytes>,
                                 body: seq<E> -> bytes)
  {
    forall i | 0 <= i < |os| :: Truthful(os[i], accepted, appended, body)
  }

  lemma TruthfulSnoc<E>(os: seq<Outcome<E>>, o: Outcome<E>, accepted: set<bytes>, appended: set<bytes>,
                        body: seq<E> -> bytes)
    requires AllTruthful(os, accepted, appended, body) && Truthful(o, accepted, appended, body)
    ensures AllTruthful(os + [o], accepted, appended, body)
  {
  }

  lemma TruthfulGrows<E>(os: seq<Outcome<E>>, accepted: set<bytes>, accepted2: set<bytes>, appended: set<bytes>,
                         appended2: set<bytes>, body: seq<E> -> bytes)
    requires AllTruthful(os, accepted, appended, body) && accepted <= accepted2 && appended <= appended2
    ensures AllTruthful(os, accepted2, appended2, body)
  {
    forall i | 0 <= i < |os| ensures Truthful(os[i], accepted2, appended2, body) {
      assert Truthful(os[i], accepted, appended, body);
    }
  }

  /** Every run that was sent or spilled had a body within the cap. */
  predicate BodiesWithin<E>(os: seq<Outcome<E>>, cap: int, body: seq<E> -> bytes) {
    cap > 0 ==> forall i | 0 <= i < |os| && os[i].fate != Failed :: |body(os[i].run)| <= cap
  }

  /** os settles evs in order as consecutive runs, each once, with every sent or spilled body
      within the cap. */
  ghost predicate Settles<E>(os: seq<Outcome<E>>, evs: seq<E>, cap: int, body: seq<E> -> bytes) {
    Runs(os) == evs && BodiesWithin(os, cap, body)
  }

  lemma SettlesOne<E>(run: seq<E>, fate: Fate, cap: int, body: seq<E> -> bytes)
    requires fate != Failed && cap > 0 ==> |body(run)| <= cap
    ensures Settles([Outcome(run, fate)], run, cap, body)
    ensures CountOf([Outcome(run, fate)], Sent) == if fate == Sent then |run| else 0
  {
    OutcomeOne(Outcome(run, fate), Sent);
  }

  lemma SettlesBoth<E>(a: seq<Outcome<E>>, b: seq<Outcome<E>>, evs: seq<E>, half: nat, cap: int, body: seq<E> -> bytes)
    requires half <= |evs| && Settles(a, evs[..half], cap, body) && Settles(b, evs[half..], cap, body)
    ensures Settles(a + b, evs, cap, body)
    ensures CountOf(a + b, Sent) == CountOf(a, Sent) + CountOf(b, Sent)
  {
    OutcomesAppend(a, b, Sent);
    assert evs[..half] + evs[half..] == evs;
  }

  ghost predicate Extends<T>(a: seq<T>, b: seq<T>) {
    |a| <= |b| && forall i | 0 <= i < |a| :: b[i] == a[i]
  }

  /** Bursts one behind the other. */
  function Flatten<E>(bursts: seq<seq<E>>): seq<E> {
    if bursts == [] then [] else bursts[0] + Flatten(bursts[1..])
  }

  lemma {:induction false} FlattenSnoc<E>(bursts: seq<seq<E>>, k: nat)
    requires k < |bursts|
    ensures Flatten(bursts[..k + 1]) == Flatten(bursts[..k]) + bursts[k]
    decreases k
  {
    if k == 0 {
      assert bursts[..1] == [bursts[0]] && bursts[..1][1..] == [] && bursts[..0] == [];
      assert bursts[0] + [] == bursts[0] == [] + bursts[0];
    } else {
      assert bursts[..k + 1][1..] == bursts[1..][..k] && bursts[..k][1..] == bursts[1..][..k - 1];
      FlattenSnoc(bursts[1..], k - 1);
      ConcatAssoc(bursts[0], Flatten(bursts[1..][..k - 1]), bursts[k]);
    }
  }

  lemma {:induction false} FlattenSize<E>(bursts: seq<seq<E>>)
    ensures |Flatten(bursts)| == Size(bursts)
  {
    if bursts != [] {
      FlattenSize(bursts[1..]);
    }
  }

  lemma {:induction false} FlattenFit<E>(bursts: seq<seq<E>>, fit: E -> bool)
    requires forall i | 0 <= i < |bursts| :: AllFit(bursts[i], fit)
    ensures AllFit(Flatten(bursts), fit)
  {
    if bursts != [] {
      FlattenFit(bursts[1..], fit);
    }
  }

  /** What was pushed is exactly what arrived, in order, and the rest is still to come. */
  ghost predicate SuppliedBy<E>(pushed: seq<E>, arrivals: seq<seq<E>>, future: seq<seq<E>>) {
    && |future| <= |arrivals| && future == arrivals[|arrivals| - |future|..]
    && pushed == Flatten(arrivals[..|arrivals| - |future|])
  }

  lemma BurstLands<E>(pushed: seq<E>, arrivals: seq<seq<E>>, future: seq<seq<E>>)
    requires SuppliedBy(pushed, arrivals, future) && future != []
    ensures SuppliedBy(pushed + future[0], arrivals, future[1..])
  {
    var n := |arrivals| - |future|;
    assert future[0] == arrivals[n] && future[1..] == arrivals[n + 1..];
    FlattenSnoc(arrivals, n);
  }

  /** These are the last of those pushed. */
  ghost predicate Newest<E>(evs: seq<E>, pushed: seq<E>) {
    |evs| <= |pushed| && evs == pushed[|pushed| - |evs|..]
  }

  lemma OldestLeave<E>(queue: seq<E>, k: nat, pushed: seq<E>)
    requires k <= |queue| && Newest(queue, pushed)
    ensures Newest(queue[..k] + queue[k..], pushed)
  {
    assert queue[..k] + queue[k..] == queue;
  }

  function Min(a: nat, b: nat): nat {
    if a < b then a else b
  }

  /** What is left of n when up to m are taken. */
  function Beyond(n: nat, m: nat): nat {
    n - Min(m, n)
  }

  /** The events in a ring of that capacity once the next burst has landed. */
  function Filled<E>(size: nat, future: seq<seq<E>>, cap: nat): nat {
    if future == [] then size else Min(size + |future[0]|, cap)
  }

  /** What a replay that nothing hinders leaves of the file. */
  function Cleared(offline: bool, file: bytes): bytes {
    if offline then [] else file
  }

  /** A burst was taken in, if there was one to come. */
  predicate BurstTaken(before: nat, after: nat) {
    after <= before && (before > 0 ==> after < before)
  }

  /** A burst was taken in, or else the ring got shorter. */
  predicate Shrinks(before: nat, after: nat, size0: nat, size: nat) {
    after <= before && (after == before ==> size < size0)
  }

  function Size<E>(bursts: seq<seq<E>>): nat {
    if bursts == [] then 0 else |bursts[0]| + Size(bursts[1..])
  }

  lemma {:induction false} SizeSplit<E>(bursts: seq<seq<E>>, k: nat)
    requires k <= |bursts|
    ensures Size(bursts) == Size(bursts[..k]) + Size(bursts[k..])
  {
    if k > 0 {
      assert bursts[..k][1..] == bursts[1..][..k - 1] && bursts[k..] == bursts[1..][k - 1..];
      SizeSplit(bursts[1..], k - 1);
    } else {
      assert bursts[0..] == bursts;
    }
  }

  lemma WorkingIsHealthy(world: nat -> World, from: nat, to: nat)
    requires WorksFrom(world, from)
    ensures Healthy(world, from, to)
  {
    forall i: nat | from <= i < to ensures world(i).disk {
      assert WorksAt(world, i);
    }
  }
}
