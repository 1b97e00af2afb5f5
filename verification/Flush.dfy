/**
 Waiting for the sender: ph_flush in every interleaving of producers, the one sender and any
 number of flushing callers. A step is one access to shared state, so a caller that tests its
 idle condition does so in three steps while others move. Events are numbered as they are pushed.
 */
module Flush {
  import opened Options

  // ----------------------------------------------------------------- state

  /** Who holds the flush lock. */
  datatype Owner = Free | TheSender | TheCaller(t: nat)

  /** Where the sender is: outside a drain, or at a point of one. */
  datatype Point = Out | Beginning | Begun | Draining | Ending | Ended

  /** Where a flushing caller is. */
  datatype Stage =
    | Entered
    | Snapping
    | Snapped
    | Waiting
    | Looking
    | DrainPassed
    | RingEmpty
    | Busy
    | Idle
    | Left(idle: bool)

  /** mark is the number of events pushed before the call; begun0 the number of drains begun
      when the generation was read. Both are for the statements only; the code has gen0. */
  datatype Caller = Caller(stage: Stage, mark: nat, gen0: nat, begun0: nat)

  datatype State = State(
    cap: nat, batch: nat,
    pushed: nat, ring: seq<nat>, scratch: seq<nat>, settled: set<nat>, dropped: set<nat>,
    owner: Owner, point: Point, sending: bool, gen: nat, begun: nat,
    callers: map<nat, Caller>)

  datatype Turn =
    | Push
    | BeginLock | BeginSet | BeginUnlock | Pop | Settle | EndLock | EndSet | EndUnlock
    | Call(t: nat) | SnapLock(t: nat) | SnapRead(t: nat) | SnapUnlock(t: nat)
    | LoopLock(t: nat) | CheckGen(t: nat) | CheckSize(t: nat) | CheckSending(t: nat)
    | Wait(t: nat) | GiveUp(t: nat) | Return(t: nat)

  // ----------------------------------------------------------------- steps

  /** A producer: the oldest event is dropped when the ring is full. */
  function Pushed(s: State): State
    requires s.cap > 0
  {
    if |s.ring| >= s.cap
    then s.(ring := s.ring[1..] + [s.pushed], dropped := s.dropped + {s.ring[0]}, pushed := s.pushed + 1)
    else s.(ring := s.ring + [s.pushed], pushed := s.pushed + 1)
  }

  function Popped(s: State): State {
    var n := if |s.ring| < s.batch then |s.ring| else s.batch;
    s.(scratch := s.ring[..n], ring := s.ring[n..])
  }

  function SenderStep(s: State, turn: Turn): Option<State> {
    match turn
    case BeginLock =>
      if s.point == Out && s.owner == Free then Some(s.(owner := TheSender, point := Beginning)) else None
    case BeginSet =>
      if s.point == Beginning then Some(s.(sending := true, begun := s.begun + 1, point := Begun)) else None
    case BeginUnlock => if s.point == Begun then Some(s.(owner := Free, point := Draining)) else None
    case Pop => if s.point == Draining && s.scratch == [] then Some(Popped(s)) else None
    case Settle =>
      if s.point == Draining && s.scratch != []
      then Some(s.(settled := s.settled + {s.scratch[0]}, scratch := s.scratch[1..])) else None
    case EndLock =>
      if s.point == Draining && s.scratch == [] && s.owner == Free
      then Some(s.(owner := TheSender, point := Ending)) else None
    case EndSet => if s.point == Ending then Some(s.(sending := false, gen := s.gen + 1, point := Ended)) else None
    case EndUnlock => if s.point == Ended then Some(s.(owner := Free, point := Out)) else None
    case _ => None
  }

  predicate At(s: State, t: nat, stage: Stage) {
    t in s.callers && s.callers[t].stage == stage
  }

  function Move(s: State, t: nat, stage: Stage): State
    requires t in s.callers
  {
    s.(callers := s.callers[t := s.callers[t].(stage := stage)])
  }

  function CallerStep(s: State, turn: Turn): Option<State> {
    match turn
    case Call(t) =>
      if t !in s.callers then Some(s.(callers := s.callers[t := Caller(Entered, s.pushed, 0, 0)])) else None
    case SnapLock(t) =>
      if At(s, t, Entered) && s.owner == Free then Some(Move(s, t, Snapping).(owner := TheCaller(t))) else None
    case SnapRead(t) =>
      if At(s, t, Snapping)
      then
        var c := s.callers[t].(stage := Snapped, gen0 := s.gen, begun0 := s.begun);
        Some(s.(callers := s.callers[t := c]))
      else None
    case SnapUnlock(t) => if At(s, t, Snapped) then Some(Move(s, t, Waiting).(owner := Free)) else None
    case LoopLock(t) =>
      if At(s, t, Waiting) && s.owner == Free then Some(Move(s, t, Looking).(owner := TheCaller(t))) else None
    case CheckGen(t) =>
      if At(s, t, Looking) then Some(Move(s, t, if s.gen > s.callers[t].gen0 then DrainPassed else Busy)) else None
    case CheckSize(t) =>
      if At(s, t, DrainPassed) then Some(Move(s, t, if |s.ring| == 0 then RingEmpty else Busy)) else None
    case CheckSending(t) => if At(s, t, RingEmpty) then Some(Move(s, t, if s.sending then Busy else Idle)) else None
    case Wait(t) => if At(s, t, Busy) then Some(Move(s, t, Waiting).(owner := Free)) else None
    case GiveUp(t) => if At(s, t, Busy) then Some(Move(s, t, Left(false)).(owner := Free)) else None
    case Return(t) => if At(s, t, Idle) then Some(Move(s, t, Left(true)).(owner := Free)) else None
    case _ => None
  }

  /** One step; None when it is not enabled. */
  function Step(s: State, turn: Turn): Option<State> {
    if turn.Push? then (if s.cap > 0 then Some(Pushed(s)) else None)
    else
      var r := SenderStep(s, turn);
      if r.Some? then r else CallerStep(s, turn)
  }

  function Run(s: State, turns: seq<Turn>): Option<State>
    decreases |turns|
  {
    if turns == [] then Some(s)
    else
      var r := Step(s, turns[0]);
      if r.None? then None else Run(r.value, turns[1..])
  }

  ghost predicate Init(s: State) {
    && s.cap > 0 && s.batch > 0
    && s.pushed == 0 && s.ring == [] && s.scratch == [] && s.settled == {} && s.dropped == {}
    && s.owner == Free && s.point == Out && !s.sending && s.gen == 0 && s.begun == 0 && s.callers == map[]
  }

  // ------------------------------------------------------------- invariant

  /** The first event still in the ring; the ring holds all pushed since. */
  function Oldest(s: State): int {
    s.pushed - |s.ring|
  }

  /** Every pushed event is in the ring, in the sender's hand, settled or dropped, and in one of
      these only. */
  ghost predicate EventsOk(s: State) {
    && 0 < s.cap && 0 < s.batch && Oldest(s) >= 0
    && (forall i | 0 <= i < |s.ring| :: s.ring[i] == Oldest(s) + i)
    && (forall i | 0 <= i < |s.scratch| ::
          0 <= s.scratch[i] < Oldest(s) && s.scratch[i] !in s.settled && s.scratch[i] !in s.dropped)
    && (forall i, j | 0 <= i < j < |s.scratch| :: s.scratch[i] < s.scratch[j])
    && (forall id: nat | id < Oldest(s) :: id in s.scratch || id in s.settled || id in s.dropped)
    && (forall id | id in s.settled :: id < Oldest(s) && id !in s.dropped)
    && (forall id | id in s.dropped :: id < Oldest(s))
  }

  predicate SenderHolds(p: Point) {
    p == Beginning || p == Begun || p == Ending || p == Ended
  }

  predicate Holds(g: Stage) {
    g == Snapping || g == Snapped || g == Looking || g == DrainPassed || g == RingEmpty || g == Busy || g == Idle
  }

  /** The flush lock excludes, and sending tells whether a drain is on. */
  ghost predicate LockOk(s: State) {
    && (s.owner == TheSender <==> SenderHolds(s.point))
    && (forall t | t in s.callers :: s.owner == TheCaller(t) <==> Holds(s.callers[t].stage))
    && (s.owner.TheCaller? ==> s.owner.t in s.callers)
    && (s.sending <==> s.point == Begun || s.point == Draining || s.point == Ending)
    && (s.scratch != [] ==> s.point == Draining)
    && s.begun == s.gen + (if s.sending then 1 else 0)
  }

  /** Everything pushed before the mark was settled or dropped. */
  ghost predicate Gone(s: State, mark: nat) {
    forall id: nat | id < mark :: id in s.settled || id in s.dropped
  }

  ghost predicate CallerOk(s: State, c: Caller) {
    && c.mark <= s.pushed
    && (c.stage != Entered && c.stage != Snapping ==>
          c.gen0 <= c.begun0 <= c.gen0 + 1 && c.gen0 <= s.gen && c.begun0 <= s.begun)
    && (c.stage == Snapped ==> c.gen0 == s.gen && c.begun0 == s.begun)
    && (c.stage == DrainPassed || c.stage == RingEmpty || c.stage == Idle || c.stage == Left(true) ==> s.gen > c.gen0)
    && (c.stage == RingEmpty ==> s.sending || Gone(s, c.mark))
    && (c.stage == Idle ==> !s.sending && Gone(s, c.mark))
    && (c.stage == Left(true) ==> Gone(s, c.mark))
  }

  ghost predicate CallersOk(s: State) {
    forall t | t in s.callers :: CallerOk(s, s.callers[t])
  }

  ghost predicate Inv(s: State) {
    EventsOk(s) && LockOk(s) && CallersOk(s)
  }

  // ---------------------------------------------------------- preservation

  lemma PushKeeps(s: State)
    requires Inv(s)
    ensures Inv(Pushed(s))
  {
    var r := Pushed(s);
    assert EventsOk(r) by {
      if |s.ring| >= s.cap {
        assert s.ring[0] == Oldest(s);
      }
    }
  }

  lemma PopKeeps(s: State)
    requires Inv(s) && s.point == Draining && s.scratch == []
    ensures Inv(Popped(s))
  {
    var r := Popped(s);
    var n := |r.scratch|;
    assert EventsOk(r) by {
      forall id: nat | id < Oldest(r)
        ensures id in r.scratch || id in r.settled || id in r.dropped
      {
        if id >= Oldest(s) {
          assert r.scratch[id - Oldest(s)] == id;
        }
      }
    }
  }

  lemma SettleKeeps(s: State)
    requires Inv(s) && SenderStep(s, Settle).Some?
    ensures Inv(SenderStep(s, Settle).value)
  {
    var r := SenderStep(s, Settle).value;
    assert EventsOk(r) by {
      assert s.scratch == [s.scratch[0]] + s.scratch[1..];
    }
    assert CallersOk(r) by {
      forall t | t in r.callers ensures CallerOk(r, r.callers[t]) {
        assert CallerOk(s, s.callers[t]);
      }
    }
  }

  lemma SenderKeeps(s: State, turn: Turn)
    requires Inv(s) && SenderStep(s, turn).Some?
    ensures Inv(SenderStep(s, turn).value)
  {
    var r := SenderStep(s, turn).value;
    if turn.Pop? {
      PopKeeps(s);
    } else if turn.Settle? {
      SettleKeeps(s);
    } else {
      assert EventsOk(r);
      assert LockOk(r);
      assert CallersOk(r) by {
        forall t | t in r.callers ensures CallerOk(r, r.callers[t]) {
          assert CallerOk(s, s.callers[t]);
          assert s.owner == TheSender ==> !Holds(s.callers[t].stage);
        }
      }
    }
  }

  /** An empty ring with no drain on means that nothing pushed so far is left anywhere. */
  lemma QuietIsGone(s: State, mark: nat)
    requires Inv(s) && s.ring == [] && !s.sending && mark <= s.pushed
    ensures Gone(s, mark)
  {
  }

  /** The lock stays consistent when one caller moves without it, takes it, or gives it back. */
  lemma MoveKeepsLock(s: State, t: nat, c: Caller, o: Owner)
    requires LockOk(s)
    requires if o == s.owner then Holds(c.stage) == (o == TheCaller(t))
             else if o == Free then s.owner == TheCaller(t) && !Holds(c.stage)
             else o == TheCaller(t) && s.owner == Free && Holds(c.stage)
    ensures LockOk(s.(callers := s.callers[t := c], owner := o))
  {
  }

  lemma CallerKeepsLock(s: State, turn: Turn)
    requires Inv(s) && CallerStep(s, turn).Some?
    ensures LockOk(CallerStep(s, turn).value)
  {
    var r := CallerStep(s, turn).value;
    MoveKeepsLock(s, turn.t, r.callers[turn.t], r.owner);
  }

  lemma MovedCallerOk(s: State, turn: Turn)
    requires Inv(s) && CallerStep(s, turn).Some?
    ensures var r := CallerStep(s, turn).value;
            turn.t in r.callers && CallerOk(r, r.callers[turn.t])
  {
    assert turn.t in s.callers ==> CallerOk(s, s.callers[turn.t]);
    if turn.CheckSize? && s.ring == [] && !s.sending {
      QuietIsGone(s, s.callers[turn.t].mark);
    }
  }

  lemma CallerKeepsCallers(s: State, turn: Turn)
    requires Inv(s) && CallerStep(s, turn).Some?
    ensures CallersOk(CallerStep(s, turn).value)
  {
    var r := CallerStep(s, turn).value;
    MovedCallerOk(s, turn);
    assert r == s.(owner := r.owner, callers := r.callers);
    forall t | t in r.callers && t != turn.t ensures CallerOk(r, r.callers[t]) {
      assert r.callers[t] == s.callers[t] && CallerOk(s, s.callers[t]);
    }
  }

  lemma CallerKeeps(s: State, turn: Turn)
    requires Inv(s) && CallerStep(s, turn).Some?
    ensures Inv(CallerStep(s, turn).value)
  {
    CallerKeepsLock(s, turn);
    CallerKeepsCallers(s, turn);
  }

  lemma StepKeeps(s: State, turn: Turn)
    requires Inv(s) && Step(s, turn).Some?
    ensures Inv(Step(s, turn).value)
  {
    if turn.Push? {
      PushKeeps(s);
    } else if SenderStep(s, turn).Some? {
      SenderKeeps(s, turn);
    } else {
      CallerKeeps(s, turn);
    }
  }

  lemma {:induction false} RunKeeps(s: State, turns: seq<Turn>)
    requires Inv(s) && Run(s, turns).Some?
    ensures Inv(Run(s, turns).value)
    decreases |turns|
  {
    if turns != [] {
      StepKeeps(s, turns[0]);
      RunKeeps(Step(s, turns[0]).value, turns[1..]);
    }
  }

  // ---------------------------------------------------------------- callers

  predicate Past(g: Stage) {
    g != Entered && g != Snapping
  }

  /** What a caller noted on entry stays, and what it read stays once it was read. */
  lemma {:induction false} NotesStay(s: State, turns: seq<Turn>, t: nat)
    requires t in s.callers && Run(s, turns).Some?
    ensures t in Run(s, turns).value.callers
    ensures var c, d := s.callers[t], Run(s, turns).value.callers[t];
            d.mark == c.mark && (Past(c.stage) ==> Past(d.stage) && d.gen0 == c.gen0 && d.begun0 == c.begun0)
    decreases |turns|
  {
    if turns != [] {
      NoteStays(s, turns[0], t);
      NotesStay(Step(s, turns[0]).value, turns[1..], t);
    }
  }

  lemma NoteStays(s: State, turn: Turn, t: nat)
    requires t in s.callers && Step(s, turn).Some?
    ensures t in Step(s, turn).value.callers
    ensures var c, d := s.callers[t], Step(s, turn).value.callers[t];
            d.mark == c.mark && (Past(c.stage) ==> Past(d.stage) && d.gen0 == c.gen0 && d.begun0 == c.begun0)
  {
  }

  // ----------------------------------------------------------- main results

  /** A caller that enters after any run and leaves by the idle condition, whatever the others do
      meanwhile, finds every event pushed before its call settled, or dropped by a full ring: none
      is in the ring and none in the sender's hand. */
  lemma IdleFlushSettledAll(s0: State, before: seq<Turn>, t: nat, after: seq<Turn>, id: nat)
    requires Init(s0) && Run(s0, before).Some? && Step(Run(s0, before).value, Call(t)).Some?
    requires Run(Step(Run(s0, before).value, Call(t)).value, after).Some?
    requires id < Run(s0, before).value.pushed
    ensures var r := Run(Step(Run(s0, before).value, Call(t)).value, after).value;
            t in r.callers && (r.callers[t].stage == Idle || r.callers[t].stage == Left(true)) ==>
              && (id in r.settled || id in r.dropped) && id !in r.ring && id !in r.scratch
              && (r.callers[t].stage == Idle ==> r.scratch == [])
  {
    RunKeeps(s0, before);
    var s := Step(Run(s0, before).value, Call(t)).value;
    StepKeeps(Run(s0, before).value, Call(t));
    RunKeeps(s, after);
    NotesStay(s, after, t);
  }

  /** From here on, the caller leaves idle only after a drain that began since has ended. */
  ghost predicate WaitsForWholeDrain(s: State, t: nat) {
    forall turns | Run(s, turns).Some? && At(Run(s, turns).value, t, Idle) :: Run(s, turns).value.gen > s.begun
  }

  lemma {:induction false} RunJoin(s: State, turn: Turn, turns: seq<Turn>)
    requires Step(s, turn).Some?
    ensures Run(s, [turn] + turns) == Run(Step(s, turn).value, turns)
  {
    assert ([turn] + turns)[0] == turn && ([turn] + turns)[1..] == turns;
  }

  /** The drain that is on can end, and let the caller go, with no other drain begun. */
  lemma {:induction false} LetGo(s: State, t: nat) returns (turns: seq<Turn>)
    requires Inv(s) && s.point == Draining && s.owner == Free && At(s, t, Waiting) && s.callers[t].gen0 == s.gen
    ensures Run(s, turns).Some? && At(Run(s, turns).value, t, Idle) && Run(s, turns).value.gen == s.begun
    decreases 2 * |s.ring| + |s.scratch|
  {
    if s.scratch != [] {
      StepKeeps(s, Settle);
      turns := LetGo(Step(s, Settle).value, t);
      RunJoin(s, Settle, turns);
      turns := [Settle] + turns;
    } else if s.ring != [] {
      StepKeeps(s, Pop);
      turns := LetGo(Step(s, Pop).value, t);
      RunJoin(s, Pop, turns);
      turns := [Pop] + turns;
    } else {
      turns := EndDrain(s, t);
    }
  }

  lemma {:induction false} EndDrain(s: State, t: nat) returns (turns: seq<Turn>)
    requires Inv(s) && s.point == Draining && s.owner == Free && At(s, t, Waiting) && s.callers[t].gen0 == s.gen
    requires s.scratch == [] && s.ring == []
    ensures Run(s, turns).Some? && At(Run(s, turns).value, t, Idle) && Run(s, turns).value.gen == s.begun
  {
    var a := Step(Step(Step(s, EndLock).value, EndSet).value, EndUnlock).value;
    assert a == s.(sending := false, gen := s.gen + 1, point := Out);
    turns := Look(a, t);
    RunJoin(Step(Step(s, EndLock).value, EndSet).value, EndUnlock, turns);
    RunJoin(Step(s, EndLock).value, EndSet, [EndUnlock] + turns);
    RunJoin(s, EndLock, [EndSet] + ([EndUnlock] + turns));
    turns := [EndLock] + ([EndSet] + ([EndUnlock] + turns));
  }

  lemma {:induction false} Look(s: State, t: nat) returns (turns: seq<Turn>)
    requires s.owner == Free && At(s, t, Waiting) && s.gen > s.callers[t].gen0 && s.ring == [] && !s.sending
    ensures Run(s, turns).Some? && At(Run(s, turns).value, t, Idle) && Run(s, turns).value.gen == s.gen
  {
    var a := Step(s, LoopLock(t)).value;
    var b := Step(a, CheckGen(t)).value;
    var c := Step(b, CheckSize(t)).value;
    var d := Step(c, CheckSending(t)).value;
    RunJoin(c, CheckSending(t), []);
    RunJoin(b, CheckSize(t), [CheckSending(t)] + []);
    RunJoin(a, CheckGen(t), [CheckSize(t)] + ([CheckSending(t)] + []));
    turns := [CheckGen(t)] + ([CheckSize(t)] + ([CheckSending(t)] + []));
    RunJoin(s, LoopLock(t), turns);
    turns := [LoopLock(t)] + turns;
  }

  /** ph_flush means to wait for a full cycle, replay included. In every reachable state in which
      a caller has just read the generation, it will do so exactly when no drain was on: otherwise
      that drain's end can release it, though its replay came before the call. */
  lemma WholeDrainIffNoneWasOn(s: State, t: nat)
    requires Inv(s) && At(s, t, Snapped)
    ensures WaitsForWholeDrain(s, t) <==> !s.sending
  {
    if s.sending {
      assert s.owner == TheCaller(t);
      StepKeeps(s, SnapUnlock(t));
      var turns := LetGo(Step(s, SnapUnlock(t)).value, t);
      RunJoin(s, SnapUnlock(t), turns);
      assert Run(s, [SnapUnlock(t)] + turns).value.gen == s.begun;
    } else {
      forall turns | Run(s, turns).Some? && At(Run(s, turns).value, t, Idle)
        ensures Run(s, turns).value.gen > s.begun
      {
        RunKeeps(s, turns);
        NotesStay(s, turns, t);
      }
    }
  }

  /** That happens: from the start, a caller can read the generation while a drain is on. */
  lemma {:induction false} DrainOnAtCall(s: State) returns (turns: seq<Turn>)
    requires Init(s)
    ensures Run(s, turns).Some? && At(Run(s, turns).value, 0, Snapped) && Run(s, turns).value.sending
  {
    var a := Step(s, BeginLock).value;
    var b := Step(a, BeginSet).value;
    var c := Step(b, BeginUnlock).value;
    var d := Step(c, Call(0)).value;
    var e := Step(d, SnapLock(0)).value;
    RunJoin(e, SnapRead(0), []);
    turns := [SnapRead(0)] + [];
    RunJoin(d, SnapLock(0), turns);
    turns := [SnapLock(0)] + turns;
    RunJoin(c, Call(0), turns);
    turns := [Call(0)] + turns;
    RunJoin(b, BeginUnlock, turns);
    turns := [BeginUnlock] + turns;
    RunJoin(a, BeginSet, turns);
    turns := [BeginSet] + turns;
    RunJoin(s, BeginLock, turns);
    turns := [BeginLock] + turns;
  }

  /** So ph_flush does not keep its word about a full cycle: a whole run from the start in which a
      caller leaves idle although no drain that began after its call has ended. */
  lemma {:induction false} FlushMissesAReplay(s: State) returns (before: seq<Turn>, after: seq<Turn>)
    requires Init(s)
    ensures Run(s, before).Some? && At(Run(s, before).value, 0, Snapped)
    ensures var mid := Run(s, before).value;
            Run(mid, after).Some? && At(Run(mid, after).value, 0, Idle) && Run(mid, after).value.gen == mid.begun
  {
    before := DrainOnAtCall(s);
    RunKeeps(s, before);
    var mid := Run(s, before).value;
    WholeDrainIffNoneWasOn(mid, 0);
    after :| Run(mid, after).Some? && At(Run(mid, after).value, 0, Idle) && Run(mid, after).value.gen <= mid.begun;
    RunKeeps(mid, after);
    NotesStay(mid, after, 0);
  }
}
