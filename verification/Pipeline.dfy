/**
 The sender put together with the SDK's own records: the serializer, the JSON
 recount and the privacy scrub meet the codec contract that its laws rest on.
 */
module Pipeline {
  import opened Bytes
  import opened Options
  import opened Events
  import opened Serializer
  import opened Envelope
  import opened Delivery
  import SpillFile
  import Sender

  /** Scrub number k, of one queued record. Exceptions ran the callback at capture and only meet the
      denylist again; with neither callback nor denylist nothing is touched. */
  function Scrub(k: nat, e: Event, denylist: seq<bytes>, hook: BeforeSend): Option<Event>
    requires |e.name| + |e.did| <= DATA_CAP
  {
    if hook.NoHook? && denylist == [] then Some(e)
    else if e.scrubbed then
      if denylist == [] then Some(e) else Some(Rebuilt(e, ScrubProps(e, denylist)))
    else if hook.NoHook? then Some(Rebuilt(e, ScrubProps(e, denylist)))
    else
      match hook.f(k, e.name, ScrubProps(e, denylist))
      case Veto => None
      case Keep(ps) => Some(Rebuilt(e, ps))
  }

  /** The sender's loop body over records computes Scrub. */
  method ScrubRecord(k: nat, e: Event, denylist: seq<bytes>, hook: BeforeSend) returns (r: Option<Event>)
    requires EventOk(e) && HookOk(hook)
    ensures r == Scrub(k, e, denylist, hook)
  {
    if hook.NoHook? && denylist == [] {
      return Some(e);
    }
    if e.scrubbed && denylist == [] {
      return Some(e);
    }
    var keep, out := ScrubOne(e, denylist, hook, k, !e.scrubbed);
    r := if keep then Some(out) else None;
  }

  lemma ScrubKeepsFit(k: nat, e: Event, denylist: seq<bytes>, hook: BeforeSend)
    requires EventOk(e) && HookOk(hook)
    ensures var r := Scrub(k, e, denylist, hook);
            r.Some? ==> EventOk(r.value) && r.value.crashReplay == e.crashReplay
  {
    UnpackedOk(e);
    var ps := Props.Take(Props.Scalars(Props.Entries(e.blob)), Props.MAX_PROPS);
    AllowedOk(ps, denylist);
    RebuiltOk(e, ScrubProps(e, denylist));
    if hook.Hook? {
      var v := hook.f(k, e.name, ScrubProps(e, denylist));
      if v.Keep? {
        RebuiltOk(e, v.props);
      }
    }
  }

  function SdkCodec(c: Ctx, hook: BeforeSend): Codec<Event> {
    Codec(
      (evs: seq<Event>) => Body(c, evs),
      (line: bytes) => BatchCount(line),
      (k: nat, e: Event) => if |e.name| + |e.did| <= DATA_CAP then Scrub(k, e, c.denylist, hook) else Some(e),
      (e: Event) => e.crashReplay)
  }

  ghost function Fit(): Event -> bool {
    e => EventOk(e)
  }

  /** Every law of the sender holds of the SDK's own pipeline. */
  lemma SdkCodecOk(c: Ctx, hook: BeforeSend)
    requires CtxOk(c) && HookOk(hook)
    ensures CodecOk(SdkCodec(c, hook), Fit())
  {
    var k := SdkCodec(c, hook);
    forall evs | AllFit(evs, Fit())
      ensures SpillFile.OneLine(k.body(evs)) && k.count(k.body(evs)) == |evs|
    {
      assert EventsOk(evs) by {
        forall i | 0 <= i < |evs| ensures EventOk(evs[i]) {
          assert Fit()(evs[i]);
        }
      }
      BodyCount(c, evs);
      BodyIsOneLine(c, evs);
    }
    forall n, e | Fit()(e) && k.scrub(n, e).Some?
      ensures Fit()(k.scrub(n, e).value) && k.crash(k.scrub(n, e).value) == k.crash(e)
    {
      ScrubKeepsFit(n, e, c.denylist, hook);
    }
  }

  /** What the world and the captures must be like for a session. */
  ghost predicate SessionOk(c: Ctx, hook: BeforeSend, world: nat -> World, captures: seq<seq<Event>>) {
    CtxOk(c) && HookOk(hook) && StaysExpired(world) && forall i | 0 <= i < |captures| :: EventsOk(captures[i])
  }

  method StartSender(c: Ctx, hook: BeforeSend, offline: bool, maxBatch: nat, maxBatchBytes: int, maxRetries: int,
                     maxQueue: int, world: nat -> World, captures: seq<seq<Event>>, file: bytes)
    returns (s: Sender.Sender<Event>)
    requires SessionOk(c, hook, world, captures) && maxBatch > 0 && SpillFile.Terminated(file)
    ensures fresh(s) && fresh(s.inbox) && fresh(s.inbox.ring) && fresh(s.inbox.ring.slots) && fresh(s.clock)
    ensures fresh(s.poster) && fresh(s.poster.limiter) && fresh(s.store) && s.Valid()
    ensures s.codec == SdkCodec(c, hook) && s.offline == offline && s.poster.maxBatchBytes == maxBatchBytes
    ensures s.clock.world == world && s.clock.looks == 0 && s.poster.limiter.until == 0
    ensures s.inbox.future == s.inbox.arrivals == captures && s.inbox.ring.size == s.inbox.ring.dropped == 0
    ensures s.store.file == file && s.store.lines0 == SpillFile.Lines(file) && s.store.replays == NoRewrite
    ensures s.sent == s.failed == s.vetoed == 0
  {
    SdkCodecOk(c, hook);
    forall i | 0 <= i < |captures| ensures AllFit(captures[i], Fit()) {
      assert EventsOk(captures[i]);
    }
    s := Sender.NewSender(SdkCodec(c, hook), Fit(), offline, maxBatch, maxBatchBytes, maxRetries, maxQueue,
                      world, captures, file);
  }

  /** A whole session: start, any number of drains, the final drain. Of the bursts of captures the
      first few have landed. Their events, plus those the file held at the start, are exactly the
      ones dropped, vetoed, sent, failed, on disk and left in the ring, but for those counted
      twice. Nothing is counted twice without a path or on a disk that works. Unless some reply asks
      for a hold, nothing is left in the ring and every drain takes in a burst. */
  method Session(c: Ctx, hook: BeforeSend, offline: bool, maxBatch: nat, maxBatchBytes: int, maxRetries: int,
                 maxQueue: int, world: nat -> World, captures: seq<seq<Event>>, file: bytes, rounds: nat)
    returns (landed: nat, dropped: nat, vetoed: nat, sent: nat, failed: nat, disk: bytes, left: nat, ghost twice: nat)
    requires SessionOk(c, hook, world, captures) && maxBatch > 0 && SpillFile.Terminated(file)
    ensures landed <= |captures| && SpillFile.Terminated(disk)
    ensures Size(captures[..landed]) + OnDisk(c, hook, file) + twice
         == dropped + vetoed + sent + failed + OnDisk(c, hook, disk) + left
    ensures twice > 0 ==> offline && exists i: nat :: !world(i).disk
    ensures left > 0 ==> SomeHold(world)
    ensures SomeHold(world) || landed == |captures| || landed > rounds
    ensures sent > 0 ==> exists i: nat :: CanPost(world(i)) && Delivered(world(i).reply.status)
  {
    var s := StartSender(c, hook, offline, maxBatch, maxBatchBytes, maxRetries, maxQueue, world, captures, file);
    RunOut(s, rounds);
    landed := |captures| - |s.inbox.future|;
    dropped, vetoed, sent, failed := s.inbox.ring.dropped, s.vetoed, s.sent, s.failed;
    disk, left, twice := s.store.file, s.inbox.ring.size, s.store.Duplicated();
  }

  method RunOut(s: Sender.Sender<Event>, rounds: nat)
    requires s.Valid() && s.store.replays == NoRewrite && s.inbox.future == s.inbox.arrivals
    modifies s, s.clock, s.poster, s.poster.limiter, s.store, s.inbox, s.inbox.ring, s.inbox.ring.slots
    ensures SpillFile.Terminated(s.store.file) && |s.inbox.future| <= |s.inbox.arrivals|
    ensures Size(s.inbox.arrivals[..s.inbox.Landed()]) + SpillFile.Total(s.store.lines0, s.codec.count)
            + s.store.Duplicated()
         == s.inbox.ring.dropped + s.vetoed + s.sent + s.failed + s.store.OnDisk() + s.inbox.ring.size
    ensures s.store.Duplicated() > 0 ==> s.offline && exists i: nat :: !s.clock.world(i).disk
    ensures s.inbox.ring.size > 0 ==> SomeHold(s.clock.world)
    ensures SomeHold(s.clock.world) || s.inbox.future == [] || s.inbox.Landed() > rounds
    ensures s.sent > 0 ==> exists i: nat :: CanPost(s.clock.world(i)) && Delivered(s.clock.world(i).reply.status)
  {
    s.Run(rounds);
    if s.store.Duplicated() > 0 {
      assert !Healthy(s.clock.world, old(s.clock.looks), s.clock.looks);
    }
    if s.sent > 0 {
      assert Named(s.poster.acceptedBy.value);
    }
  }

  /** On a working disk, with no reply that asks for a hold, conservation is exact and complete. */
  method HealthySession(c: Ctx, hook: BeforeSend, offline: bool, maxBatch: nat, maxBatchBytes: int, maxRetries: int,
                        maxQueue: int, world: nat -> World, captures: seq<seq<Event>>, file: bytes)
    returns (dropped: nat, vetoed: nat, sent: nat, failed: nat, disk: bytes)
    requires SessionOk(c, hook, world, captures) && maxBatch > 0 && SpillFile.Terminated(file)
    requires !SomeHold(world) && forall i: nat :: world(i).disk
    ensures Size(captures) + OnDisk(c, hook, file) == dropped + vetoed + sent + failed + OnDisk(c, hook, disk)
  {
    var landed, left;
    ghost var twice;
    landed, dropped, vetoed, sent, failed, disk, left, twice :=
      Session(c, hook, offline, maxBatch, maxBatchBytes, maxRetries, maxQueue, world, captures, file, |captures|);
    assert captures[..landed] == captures;
  }

  /** Where nothing goes wrong nothing is lost: with a path and no cap on bodies, every capture and
      every event that the file held is sent, but for those vetoed or dropped by a full ring. */
  method IdealSession(c: Ctx, hook: BeforeSend, maxBatch: nat, maxRetries: int, maxQueue: int, world: nat -> World,
                      captures: seq<seq<Event>>, file: bytes)
    returns (dropped: nat, vetoed: nat, sent: nat, failed: nat, disk: bytes)
    requires SessionOk(c, hook, world, captures) && maxBatch > 0 && SpillFile.Terminated(file)
    requires SmoothFrom(world, 0, 0) && WorksFrom(world, 0)
    ensures failed == 0 && disk == [] && Size(captures) + OnDisk(c, hook, file) == dropped + vetoed + sent
  {
    var s := StartSender(c, hook, true, maxBatch, 0, maxRetries, maxQueue, world, captures, file);
    s.Reconnect(|captures|);
    dropped, vetoed, sent, failed, disk := s.inbox.ring.dropped, s.vetoed, s.sent, s.failed, s.store.file;
  }

  ghost function OnDisk(c: Ctx, hook: BeforeSend, f: bytes): nat {
    SpillFile.Total(SpillFile.Lines(f), SdkCodec(c, hook).count)
  }
}
