/** Where captures wait for the sender. */
module Inbox {
  import opened Delivery
  import Ring

  /** The ring, and the pushes still to come, of which one burst lands before each pop. */
  class Inbox<E(0)> {
    const ring: Ring.Ring<E>
    var future: seq<seq<E>>

    /** All that is ever to arrive, what holds of every event, and all that was taken. */
    ghost const arrivals: seq<seq<E>>
    ghost const fit: E -> bool
    ghost var popped: seq<E>

    ghost predicate Valid()
      reads this, ring, ring.slots
    {
      && ring as object != this && ring.slots as object != this && ring.slots as object != ring
      && ring.Valid() && AllFit(ring.Contents(), fit) && popped == ring.PoppedSoFar()
      && SuppliedBy(ring.pushed, arrivals, future)
      && forall i | 0 <= i < |arrivals| :: AllFit(arrivals[i], fit)
    }

    /** The bursts that have landed. */
    ghost function Landed(): int
      reads this
    {
      |arrivals| - |future|
    }

    constructor (maxQueue: int, future: seq<seq<E>>, ghost fit: E -> bool)
      requires forall i | 0 <= i < |future| :: AllFit(future[i], fit)
      ensures Valid() && fresh(ring) && fresh(ring.slots) && this.fit == fit && popped == []
      ensures this.future == arrivals == future && ring.size == ring.dropped == 0 && ring.pushed == []
      ensures ring.slots.Length == if maxQueue < Ring.MIN_CAP then Ring.MIN_CAP else maxQueue
    {
      ring := new Ring.Ring(maxQueue);
      this.future, arrivals, this.fit, popped := future, future, fit, [];
      new;
      assert arrivals[..0] == [] && arrivals[0..] == arrivals;
    }

    /** The next burst of captures lands in the ring. */
    method Arrive()
      requires Valid()
      modifies this`future, ring, ring.slots
      ensures Valid() && |future| == (if old(future) == [] then 0 else |old(future)| - 1)
      ensures ring.size + ring.dropped + |old(ring.pushed)| == old(ring.size + ring.dropped) + |ring.pushed|
      ensures ring.size == Filled(old(ring.size), old(future), ring.slots.Length)
    {
      if future != [] {
        BurstLands(ring.pushed, arrivals, future);
        PushAll(future[0]);
        future := future[1..];
      }
    }

    method PushAll(burst: seq<E>)
      requires ring.Valid() && AllFit(ring.Contents(), fit) && AllFit(burst, fit)
      modifies ring, ring.slots
      ensures ring.Valid() && AllFit(ring.Contents(), fit) && ring.PoppedSoFar() == old(ring.PoppedSoFar())
      ensures ring.pushed == old(ring.pushed) + burst
      ensures ring.size + ring.dropped == old(ring.size + ring.dropped) + |burst|
      ensures ring.size == Min(old(ring.size) + |burst|, ring.slots.Length)
    {
      var i := 0;
      assert ring.pushed + burst[..0] == ring.pushed;
      while i < |burst|
        invariant 0 <= i <= |burst|
        invariant ring.Valid() && AllFit(ring.Contents(), fit) && ring.PoppedSoFar() == old(ring.PoppedSoFar())
        invariant ring.pushed == old(ring.pushed) + burst[..i]
        invariant ring.size + ring.dropped == old(ring.size + ring.dropped) + i
        invariant ring.size == Min(old(ring.size) + i, ring.slots.Length)
      {
        assert burst[..i + 1] == burst[..i] + [burst[i]];
        ring.Push(burst[i]);
        i := i + 1;
      }
      assert burst[..i] == burst;
    }

    /** Captures that raced us land first; then up to max of the oldest events leave. With those that
        stay they are the newest that were pushed. */
    method Take(max: nat) returns (evs: seq<E>)
      requires Valid() && max > 0
      modifies this, ring, ring.slots
      ensures Valid() && AllFit(evs, fit) && popped == old(popped) + evs
      ensures Newest(evs + ring.Contents(), ring.pushed)
      ensures |future| == (if old(future) == [] then 0 else |old(future)| - 1)
      ensures ring.size + ring.dropped + |evs| + |old(ring.pushed)| == old(ring.size + ring.dropped) + |ring.pushed|
      ensures |evs| + ring.size == Filled(old(ring.size), old(future), ring.slots.Length)
      ensures |evs| == Min(max, |evs| + ring.size)
    {
      Arrive();
      ghost var before := ring.Contents();
      evs := ring.PopBatch(max);
      popped := popped + evs;
      OldestLeave(before, |evs|, ring.pushed);
    }

    /** How much was pushed, and how much is to come. */
    lemma Supply()
      requires Valid()
      ensures |ring.pushed| == Size(arrivals[..Landed()]) && |ring.pushed| + Size(future) == Size(arrivals)
      ensures future == [] ==> Size(arrivals[..Landed()]) == Size(arrivals)
    {
      FlattenSize(arrivals[..Landed()]);
      SizeSplit(arrivals, Landed());
    }

    /** Whatever left the ring was captured. */
    lemma PoppedWasCaptured(e: E)
      requires Valid() && e in popped
      ensures e in Flatten(arrivals[..Landed()]) && fit(e)
    {
      Ring.FateInside(ring.pushed[..|ring.fates|], ring.fates, Ring.Popped, e);
      FlattenFit(arrivals[..Landed()], fit);
    }
  }
}
