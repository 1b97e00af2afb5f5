/**
 The bounded ring between capture and the sender. A full ring drops its oldest
 event. The class keeps, as ghost history, every event pushed and what became
 of each one that left, so that its invariant is a statement about whole runs.
 */
module Ring {

  const MIN_CAP: nat := 8

  /** A position at most one lap ahead, brought back into the array. */
  function Wrap(n: nat, cap: nat): nat {
    if n < cap then n else n - cap
  }

  lemma WrapIsModulo(n: nat, cap: nat)
    requires 0 < cap && n < 2 * cap
    ensures n % cap == Wrap(n, cap)
  {
    Quotient(n, cap, if n < cap then 0 else 1);
  }

  lemma Quotient(n: nat, cap: nat, k: nat)
    requires cap > 0 && k * cap <= n < (k + 1) * cap
    ensures n / cap == k && n % cap == n - k * cap
  {
    var q := n / cap;
    MulMono(q + 1, k, cap);
    MulMono(k + 1, q, cap);
  }

  lemma MulMono(a: int, b: int, c: int)
    requires c >= 0
    ensures a <= b ==> a * c <= b * c
  {
  }

  /** The n slots from h on, wrapping at the end. */
  function Window<T>(s: seq<T>, h: nat, n: nat): (w: seq<T>)
    requires h < |s| && n <= |s|
    ensures |w| == n
    ensures forall i | 0 <= i < n :: w[i] == s[Wrap(h + i, |s|)]
  {
    seq(n, i requires 0 <= i < n => s[Wrap(h + i, |s|)])
  }

  /** Moving the head one slot on drops the oldest element of the window. */
  lemma WindowTail<T>(s: seq<T>, h: nat, n: nat)
    requires h < |s| && 0 < n <= |s|
    ensures s[h] == Window(s, h, n)[0]
    ensures Window(s, Wrap(h + 1, |s|), n - 1) == Window(s, h, n)[1..]
  {
    var g, tail := Wrap(h + 1, |s|), Window(s, h, n)[1..];
    forall i | 0 <= i < n - 1 ensures Window(s, g, n - 1)[i] == tail[i] {
      assert Wrap(g + i, |s|) == Wrap(h + (i + 1), |s|);
    }
  }

  /** Filling the slot behind the window appends to it and disturbs nothing else. */
  lemma WindowSnoc<T>(s: seq<T>, h: nat, n: nat, x: T)
    requires h < |s| && n < |s|
    ensures Window(s[Wrap(h + n, |s|) := x], h, n + 1) == Window(s, h, n) + [x]
  {
    var t := s[Wrap(h + n, |s|) := x];
    forall i | 0 <= i < n ensures Window(t, h, n + 1)[i] == Window(s, h, n)[i] {
      assert Wrap(h + i, |s|) != Wrap(h + n, |s|);
    }
  }

  datatype Fate = Popped | Dropped

  /** The events of s whose fate is f, in order. */
  function WithFate<T>(s: seq<T>, fates: seq<Fate>, f: Fate): seq<T>
    requires |s| == |fates|
  {
    if s == [] then []
    else WithFate(s[..|s| - 1], fates[..|s| - 1], f)
         + if fates[|s| - 1] == f then [s[|s| - 1]] else []
  }

  lemma WithFateSnoc<T>(s: seq<T>, fates: seq<Fate>, x: T, g: Fate, f: Fate)
    requires |s| == |fates|
    ensures WithFate(s + [x], fates + [g], f) == WithFate(s, fates, f) + if g == f then [x] else []
  {
    assert (s + [x])[..|s|] == s;
    assert (fates + [g])[..|s|] == fates;
  }

  /** Every event that left was popped or dropped, and never both. */
  lemma {:induction false} FatesPartition<T>(s: seq<T>, fates: seq<Fate>)
    requires |s| == |fates|
    ensures |WithFate(s, fates, Popped)| + |WithFate(s, fates, Dropped)| == |s|
    decreases |s|
  {
    if s != [] {
      FatesPartition(s[..|s| - 1], fates[..|s| - 1]);
    }
  }

  lemma {:induction false} FateInside<T>(s: seq<T>, fates: seq<Fate>, f: Fate, x: T)
    requires |s| == |fates| && x in WithFate(s, fates, f)
    ensures x in s
    decreases |s|
  {
    var init := s[..|s| - 1];
    if x in WithFate(init, fates[..|s| - 1], f) {
      FateInside(init, fates[..|s| - 1], f, x);
      assert x in init;
    }
  }

  class Ring<T(0)> {
    const slots: array<T>
    var head: nat
    var size: nat
    var dropped: nat

    ghost var pushed: seq<T>
    ghost var fates: seq<Fate>

    /** The live events, oldest first. */
    ghost function Contents(): (s: seq<T>)
      requires head < slots.Length && size <= slots.Length
      reads this, slots
      ensures |s| == size
    {
      Window(slots[..], head, size)
    }

    /** The wrapped array, the history and the counters tell one story:
        the live events are the newest pushed, every older one was popped or
        dropped, and the drop counter counts the dropped ones. */
    ghost predicate Valid()
      reads this, slots
    {
      && MIN_CAP <= slots.Length && head < slots.Length && size <= slots.Length
      && |pushed| == |fates| + size
      && Contents() == pushed[|fates|..]
      && dropped == |WithFate(pushed[..|fates|], fates, Dropped)|
    }

    /** Everything popped so far, in the order it came out. */
    ghost function PoppedSoFar(): seq<T>
      requires Valid()
      reads this, slots
    {
      WithFate(pushed[..|fates|], fates, Popped)
    }

    constructor (cap: int)
      ensures Valid() && fresh(slots)
      ensures slots.Length == (if cap < MIN_CAP then MIN_CAP else cap)
      ensures Contents() == [] && pushed == [] && fates == [] && dropped == 0
    {
      slots := new T[if cap < MIN_CAP then MIN_CAP else cap];
      head, size, dropped := 0, 0, 0;
      pushed, fates := [], [];
    }

    /** The conservation law of the ring, at any point of any run. */
    lemma Conservation()
      requires Valid()
      ensures |pushed| == |PoppedSoFar()| + dropped + size
    {
      FatesPartition(pushed[..|fates|], fates);
    }

    /** Make room when the ring is full by dropping the oldest event. */
    method Evict()
      requires Valid()
      modifies this`head, this`size, this`dropped, this`fates
      ensures Valid() && size < slots.Length && pushed == old(pushed)
      ensures old(size) < slots.Length ==>
                size == old(size) && dropped == old(dropped) && fates == old(fates) && head == old(head)
      ensures old(size) == slots.Length ==>
                size == old(size) - 1 && dropped == old(dropped) + 1 && fates == old(fates) + [Dropped]
      ensures Contents() == old(Contents())[old(size) - size..]
      ensures PoppedSoFar() == old(PoppedSoFar())
    {
      if size == slots.Length {
        ghost var was := Contents();
        WrapIsModulo(head + 1, slots.Length);
        WindowTail(slots[..], head, size);
        assert was[0] == pushed[|fates|];
        WithFateSnoc(pushed[..|fates|], fates, pushed[|fates|], Dropped, Dropped);
        WithFateSnoc(pushed[..|fates|], fates, pushed[|fates|], Dropped, Popped);
        assert pushed[..|fates| + 1] == pushed[..|fates|] + [pushed[|fates|]];
        head := (head + 1) % slots.Length;
        size := size - 1;
        dropped := dropped + 1;
        fates := fates + [Dropped];
        assert Contents() == was[1..];
      }
    }

    /** Push: evict if full, fill the tail slot, publish it. */
    method Push(x: T)
      requires Valid()
      modifies this`head, this`size, this`dropped, this`fates, this`pushed, slots
      ensures Valid() && pushed == old(pushed) + [x]
      ensures old(size) < slots.Length ==> Contents() == old(Contents()) + [x] && dropped == old(dropped)
      ensures old(size) == slots.Length ==> Contents() == old(Contents())[1..] + [x] && dropped == old(dropped) + 1
      ensures old(fates) <= fates
      ensures PoppedSoFar() == old(PoppedSoFar())
    {
      Evict();
      Publish(x);
    }

    method Publish(x: T)
      requires Valid() && size < slots.Length
      modifies this`size, this`pushed, slots
      ensures Valid() && pushed == old(pushed) + [x] && Contents() == old(Contents()) + [x]
      ensures PoppedSoFar() == old(PoppedSoFar())
    {
      ghost var was := Contents();
      var idx := (head + size) % slots.Length;
      WrapIsModulo(head + size, slots.Length);
      WindowSnoc(slots[..], head, size, x);
      ghost var filled := slots[..][idx := x];
      slots[idx] := x;
      assert slots[..] == filled;
      size := size + 1;
      ghost var gone := pushed[..|fates|];
      pushed := pushed + [x];
      assert pushed[..|fates|] == gone;
      assert Contents() == was + [x];
    }

    /** Take the oldest event out. */
    method PopOne() returns (x: T)
      requires Valid() && size > 0
      modifies this`head, this`size, this`fates
      ensures Valid() && dropped == old(dropped) && pushed == old(pushed)
      ensures x == old(Contents())[0] && Contents() == old(Contents())[1..]
      ensures PoppedSoFar() == old(PoppedSoFar()) + [x]
      ensures fates == old(fates) + [Popped]
    {
      ghost var was := Contents();
      WrapIsModulo(head + 1, slots.Length);
      WindowTail(slots[..], head, size);
      assert was[0] == pushed[|fates|];
      WithFateSnoc(pushed[..|fates|], fates, pushed[|fates|], Popped, Dropped);
      WithFateSnoc(pushed[..|fates|], fates, pushed[|fates|], Popped, Popped);
      assert pushed[..|fates| + 1] == pushed[..|fates|] + [pushed[|fates|]];
      x := slots[head];
      head := (head + 1) % slots.Length;
      size := size - 1;
      fates := fates + [Popped];
      assert Contents() == was[1..];
    }

    /** Pop up to max of the oldest events, in push order. */
    method PopBatch(max: nat) returns (out: seq<T>)
      requires Valid()
      modifies this`head, this`size, this`fates
      ensures Valid() && dropped == old(dropped) && pushed == old(pushed)
      ensures |out| == if max < old(size) then max else old(size)
      ensures out == old(Contents())[..|out|] && Contents() == old(Contents())[|out|..]
      ensures PoppedSoFar() == old(PoppedSoFar()) + out
    {
      out := [];
      while |out| < max && size > 0
        invariant Valid() && dropped == old(dropped) && pushed == old(pushed)
        invariant |out| <= max && |out| + size == old(size)
        invariant out == old(Contents())[..|out|] && Contents() == old(Contents())[|out|..]
        invariant PoppedSoFar() == old(PoppedSoFar()) + out
        decreases size
      {
        var x := PopOne();
        out := out + [x];
      }
    }
  }
}
