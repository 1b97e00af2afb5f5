/**
 Admission of captured events by a token bucket, refilled from the caller's
 monotonic ticks. The source's doubles are real numbers here.
 */
module TokenBucket {

  /** rate is in tokens per second; ticks are in nanoseconds. */
  datatype Bucket = Bucket(rate: real, tokens: real, last: nat, admitted: nat, refused: nat)

  function Start(rate: real, tick: nat): Bucket {
    Bucket(rate, rate, tick, 0, 0)
  }

  /** How far a tick moves the bucket's clock forward; a late tick moves it nowhere. */
  function Forward(last: nat, tick: nat): nat {
    if tick >= last then tick - last else 0
  }

  function Refill(b: Bucket, tick: nat): real {
    b.tokens + Forward(b.last, tick) as real / 1000000000.0 * b.rate
  }

  function Capped(b: Bucket, tick: nat): real {
    if Refill(b, tick) > b.rate then b.rate else Refill(b, tick)
  }

  /** One admission decision. The clock follows the tick even when the tick is late. */
  function Admit(b: Bucket, tick: nat): Bucket {
    var t := Capped(b, tick);
    if t < 1.0 then b.(tokens := t, last := tick, refused := b.refused + 1)
    else b.(tokens := t - 1.0, last := tick, admitted := b.admitted + 1)
  }

  function Run(b: Bucket, ticks: seq<nat>): Bucket
    decreases |ticks|
  {
    if ticks == [] then b else Run(Admit(b, ticks[0]), ticks[1..])
  }

  /** The sum of the forward moves of a run. */
  function TotalForward(last: nat, ticks: seq<nat>): nat
    decreases |ticks|
  {
    if ticks == [] then 0 else Forward(last, ticks[0]) + TotalForward(ticks[0], ticks[1..])
  }

  predicate Ordered(last: nat, ticks: seq<nat>)
    decreases |ticks|
  {
    ticks == [] || (last <= ticks[0] && Ordered(ticks[0], ticks[1..]))
  }

  predicate InRange(b: Bucket) {
    0.0 <= b.tokens <= b.rate
  }

  function Earned(rate: real, ns: nat): real {
    ns as real / 1000000000.0 * rate
  }

  lemma EarnedAdds(rate: real, a: nat, b: nat)
    ensures Earned(rate, a + b) == Earned(rate, a) + Earned(rate, b)
  {
    assert (a + b) as real == a as real + b as real;
    var x, y := a as real / 1000000000.0, b as real / 1000000000.0;
    assert (a + b) as real / 1000000000.0 == x + y;
    assert (x + y) * rate == x * rate + y * rate;
  }

  lemma EarnedNonNegative(rate: real, ns: nat)
    requires rate >= 0.0
    ensures Earned(rate, ns) >= 0.0
  {
    assert ns as real / 1000000000.0 >= 0.0;
  }

  lemma AdmitStep(b: Bucket, tick: nat)
    requires InRange(b)
    ensures InRange(Admit(b, tick)) && Admit(b, tick).rate == b.rate && Admit(b, tick).last == tick
    ensures Admit(b, tick).tokens + Admit(b, tick).admitted as real
         <= b.tokens + b.admitted as real + Earned(b.rate, Forward(b.last, tick))
    ensures Admit(b, tick).admitted + Admit(b, tick).refused == b.admitted + b.refused + 1
  {
    EarnedNonNegative(b.rate, Forward(b.last, tick));
  }

  lemma {:induction false} RunBound(b: Bucket, ticks: seq<nat>)
    requires InRange(b)
    ensures InRange(Run(b, ticks)) && Run(b, ticks).rate == b.rate
    ensures Run(b, ticks).tokens + Run(b, ticks).admitted as real
         <= b.tokens + b.admitted as real + Earned(b.rate, TotalForward(b.last, ticks))
    ensures Run(b, ticks).admitted + Run(b, ticks).refused == b.admitted + b.refused + |ticks|
    decreases |ticks|
  {
    if ticks != [] {
      AdmitStep(b, ticks[0]);
      RunBound(Admit(b, ticks[0]), ticks[1..]);
      EarnedAdds(b.rate, Forward(b.last, ticks[0]), TotalForward(ticks[0], ticks[1..]));
    }
  }

  /** Over every run the tokens stay in range, every event is admitted or refused, and no more
      are admitted than the burst plus what the forward moves of the clock earned. */
  lemma AdmissionBound(rate: real, tick: nat, ticks: seq<nat>)
    requires rate > 0.0
    ensures var r := Run(Start(rate, tick), ticks);
            && 0.0 <= r.tokens <= rate
            && r.admitted + r.refused == |ticks|
            && r.admitted as real <= rate + Earned(rate, TotalForward(tick, ticks))
  {
    RunBound(Start(rate, tick), ticks);
  }

  lemma {:induction false} ForwardIsElapsed(last: nat, ticks: seq<nat>)
    requires ticks != []
    ensures TotalForward(last, ticks) >= ticks[|ticks| - 1] - last
    ensures TotalForward(last, ticks) == ticks[|ticks| - 1] - last <==> Ordered(last, ticks)
    decreases |ticks|
  {
    if |ticks| > 1 {
      ForwardIsElapsed(ticks[0], ticks[1..]);
      assert ticks[1..][|ticks| - 2] == ticks[|ticks| - 1];
    } else {
      assert ticks[1..] == [];
    }
  }

  /** With ordered ticks the bound is the burst plus rate times elapsed time; the forward
      moves add up to the elapsed time exactly when the ticks are ordered. */
  lemma OrderedAdmissionBound(rate: real, tick: nat, ticks: seq<nat>)
    requires rate > 0.0 && ticks != []
    ensures TotalForward(tick, ticks) == ticks[|ticks| - 1] - tick <==> Ordered(tick, ticks)
    ensures Ordered(tick, ticks) ==>
              ticks[|ticks| - 1] >= tick &&
              Run(Start(rate, tick), ticks).admitted as real <= rate + Earned(rate, ticks[|ticks| - 1] - tick)
  {
    AdmissionBound(rate, tick, ticks);
    ForwardIsElapsed(tick, ticks);
  }

  /** Late ticks earn credit twice: three events pass within one elapsed second at one per second. */
  lemma LateTicksExceedTheRate()
    ensures var s := 1_000_000_000;
            var r := Run(Start(1.0, 0), [0, s, 0, s]);
            r.admitted == 3 && !(r.admitted as real <= 1.0 + Earned(1.0, s))
  {
    var s := 1_000_000_000;
    var b0 := Start(1.0, 0);
    var b1 := Admit(b0, 0);
    assert b1.tokens == 0.0 && b1.admitted == 1;
    var b2 := Admit(b1, s);
    assert b2.tokens == 0.0 && b2.admitted == 2 && b2.last == s;
    var b3 := Admit(b2, 0);
    assert b3.tokens == 0.0 && b3.admitted == 2 && b3.last == 0;
    var b4 := Admit(b3, s);
    assert b4.admitted == 3;
    assert [0, s, 0, s][1..] == [s, 0, s] && [s, 0, s][1..] == [0, s] && [0, s][1..] == [s] && [s][1..] == [];
    assert Run(b3, [s]) == Run(b4, []) == b4;
    assert Run(b2, [0, s]) == b4;
    assert Run(b1, [s, 0, s]) == b4;
    assert Earned(1.0, s) == 1.0;
  }

  /** The bucket as the context keeps it, under the context's lock. */
  class Admission {
    const rate: real
    var tokens: real
    var last: nat
    var dropped: nat
    ghost var admitted: nat

    ghost function State(): Bucket
      reads this
    {
      Bucket(rate, tokens, last, admitted, dropped)
    }

    constructor (perSecond: int, tick: nat)
      ensures perSecond > 0 ==> State() == Start(perSecond as real, tick)
      ensures perSecond <= 0 ==> rate == 0.0
    {
      rate := if perSecond > 0 then perSecond as real else 0.0;
      tokens := if perSecond > 0 then perSecond as real else 0.0;
      last, dropped, admitted := tick, 0, 0;
    }

    /** Control events and an unlimited bucket pass untouched; any other event takes one step. */
    method AdmitEvent(limited: bool, tick: nat) returns (ok: bool)
      modifies this
      ensures rate <= 0.0 || !limited ==> ok && State() == old(State())
      ensures rate > 0.0 && limited ==>
                State() == Admit(old(State()), tick) && (ok <==> dropped == old(dropped))
    {
      if rate <= 0.0 || !limited {
        return true;
      }
      var d := if tick >= last then tick - last else 0;
      last := tick;
      tokens := tokens + d as real / 1000000000.0 * rate;
      if tokens > rate {
        tokens := rate;
      }
      if tokens < 1.0 {
        dropped := dropped + 1;
        return false;
      }
      tokens := tokens - 1.0;
      admitted := admitted + 1;
      return true;
    }
  }
}
