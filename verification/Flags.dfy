/**
 The feature-flag reload protocol. Every method is one section under the
 context lock, or one step of the sender between two such sections, so any
 sequence of calls is an interleaving of caller threads with the one sender.
 */
module Flags {
  import opened Bytes
  import opened Options
  import opened Props

  const HISTORY_CAP: nat := 8
  const MAX_FLAGS: nat := 64
  const MAX_GROUPS: nat := 4

  // ------------------------------------------------------------------- cache

  datatype Flag = Flag(key: bytes, enabled: bool, variant: Option<bytes>, payload: Option<bytes>, called: bool)

  predicate SameValue(a: Flag, b: Flag) {
    a.enabled == b.enabled && a.variant == b.variant
  }

  /** The position of the first flag with the key, or the length. */
  function Find(fs: seq<Flag>, key: bytes): (i: nat)
    ensures i <= |fs|
    ensures i < |fs| ==> fs[i].key == key
    ensures forall j | 0 <= j < i :: fs[j].key != key
  {
    if fs == [] || fs[0].key == key then 0 else 1 + Find(fs[1..], key)
  }

  /** The new flag, keeping the exposure latch only where the value is unchanged. */
  function Latched(old_: seq<Flag>, f: Flag): Flag {
    var i := Find(old_, f.key);
    f.(called := i < |old_| && old_[i].called && SameValue(old_[i], f))
  }

  /** A full response replaces the cache. */
  function Replaced(old_: seq<Flag>, parsed: seq<Flag>): (r: seq<Flag>)
    ensures |r| == |parsed|
    ensures forall i | 0 <= i < |r| :: r[i] == Latched(old_, parsed[i])
  {
    seq(|parsed|, i requires 0 <= i < |parsed| => Latched(old_, parsed[i]))
  }

  function Upsert(cache: seq<Flag>, f: Flag): (r: seq<Flag>)
    ensures |cache| <= |r| <= |cache| + 1 && (|cache| <= MAX_FLAGS ==> |r| <= MAX_FLAGS)
  {
    var i := Find(cache, f.key);
    if i < |cache| then cache[i := Latched(cache, f)]
    else if |cache| >= MAX_FLAGS then cache
    else cache + [Latched(cache, f)]
  }

  /** A partial response replaces only what it names. */
  function Merged(cache: seq<Flag>, parsed: seq<Flag>): (r: seq<Flag>)
    ensures |cache| <= |r| && (|cache| <= MAX_FLAGS ==> |r| <= MAX_FLAGS)
    decreases |parsed|
  {
    if parsed == [] then cache else Merged(Upsert(cache, parsed[0]), parsed[1..])
  }

  lemma UpsertElsewhere(cache: seq<Flag>, f: Flag, key: bytes)
    requires key != f.key
    ensures Find(cache, key) < |cache| ==>
              Find(Upsert(cache, f), key) == Find(cache, key)
              && Upsert(cache, f)[Find(cache, key)] == cache[Find(cache, key)]
  {
    var k, r := Find(cache, key), Upsert(cache, f);
    if k < |cache| {
      var i := Find(cache, f.key);
      assert r[k] == cache[k];
      assert forall j | 0 <= j < k :: r[j].key == cache[j].key;
      FindFirst(r, key, k);
    }
  }

  lemma FindFirst(fs: seq<Flag>, key: bytes, k: nat)
    requires k < |fs| && fs[k].key == key && forall j | 0 <= j < k :: fs[j].key != key
    ensures Find(fs, key) == k
  {
  }

  /** A flag that a partial response does not name is retained untouched. */
  lemma {:induction false} MergeRetains(cache: seq<Flag>, parsed: seq<Flag>, key: bytes)
    requires Find(cache, key) < |cache|
    requires forall i | 0 <= i < |parsed| :: parsed[i].key != key
    ensures Find(Merged(cache, parsed), key) == Find(cache, key)
    ensures Merged(cache, parsed)[Find(cache, key)] == cache[Find(cache, key)]
    decreases |parsed|
  {
    if parsed != [] {
      UpsertElsewhere(cache, parsed[0], key);
      MergeRetains(Upsert(cache, parsed[0]), parsed[1..], key);
    }
  }

  // -------------------------------------------------------------- provenance

  /** A flag as a response gives it. */
  function Bare(f: Flag): Flag {
    f.(called := false)
  }

  /** What a response answers to a request. */
  ghost function Given(request: Context, flags: seq<Flag>): set<(Context, Flag)> {
    set f | f in flags :: (request, Bare(f))
  }

  /** Every cached flag was given, with its value, in answer to a request built from this context. */
  ghost predicate Answered(cache: seq<Flag>, ctx: Context, answers: set<(Context, Flag)>) {
    forall i | 0 <= i < |cache| :: (ctx, Bare(cache[i])) in answers
  }

  lemma ReplacedAnswered(cache: seq<Flag>, flags: seq<Flag>, ctx: Context, answers: set<(Context, Flag)>)
    requires Given(ctx, flags) <= answers
    ensures Answered(Replaced(cache, flags), ctx, answers)
  {
    forall i | 0 <= i < |flags| ensures (ctx, Bare(Replaced(cache, flags)[i])) in answers {
      assert flags[i] in flags && (ctx, Bare(flags[i])) in Given(ctx, flags);
    }
  }

  lemma {:induction false} MergedAnswered(cache: seq<Flag>, flags: seq<Flag>, ctx: Context,
                                          answers: set<(Context, Flag)>)
    requires Answered(cache, ctx, answers) && Given(ctx, flags) <= answers
    ensures Answered(Merged(cache, flags), ctx, answers)
    decreases |flags|
  {
    if flags != [] {
      assert flags[0] in flags && (ctx, Bare(flags[0])) in Given(ctx, flags);
      assert forall f | f in flags[1..] :: f in flags && (ctx, Bare(f)) in Given(ctx, flags);
      MergedAnswered(Upsert(cache, flags[0]), flags[1..], ctx, answers);
    }
  }

  // ----------------------------------------------------------------- context

  datatype Group = Group(kind: bytes, key: bytes, props: seq<Prop>)

  /** Everything a /flags request is built from. */
  datatype Context = Context(distinctId: bytes, groups: seq<Group>, person: seq<Prop>)

  /** The group of a type, if the user is in one. */
  function GroupOf(groups: seq<Group>, kind: bytes): Option<Group> {
    if groups == [] then None else if groups[0].kind == kind then Some(groups[0]) else GroupOf(groups[1..], kind)
  }

  /** The first group that matches the type, and the key when one is asked for, or the length. */
  function GroupIndex(groups: seq<Group>, kind: bytes, key: Option<bytes>): (i: nat)
    ensures i <= |groups|
    ensures i < |groups| ==> groups[i].kind == kind && (key.Some? ==> groups[i].key == key.value)
    ensures forall j | 0 <= j < i :: !(groups[j].kind == kind && (key.Some? ==> groups[j].key == key.value))
  {
    if groups == [] || (groups[0].kind == kind && (key.Some? ==> groups[0].key == key.value)) then 0
    else 1 + GroupIndex(groups[1..], kind, key)
  }

  lemma {:induction false} GroupIndexIs(groups: seq<Group>, kind: bytes, key: Option<bytes>, k: nat)
    requires k <= |groups|
    requires k < |groups| ==> groups[k].kind == kind && (key.Some? ==> groups[k].key == key.value)
    requires forall j | 0 <= j < k :: !(groups[j].kind == kind && (key.Some? ==> groups[j].key == key.value))
    ensures GroupIndex(groups, kind, key) == k
    decreases k
  {
    if k > 0 {
      GroupIndexIs(groups[1..], kind, key, k - 1);
    }
  }

  /** Joining: the type's group is replaced, or added while there is room. */
  function Joined(groups: seq<Group>, g: Group): (r: seq<Group>) {
    var i := GroupIndex(groups, g.kind, None);
    if i < |groups| then groups[i := g] else if |groups| < MAX_GROUPS then groups + [g] else groups
  }

  /** A scrubbed group event: the properties of that very group, if the user is still in it. */
  function Refreshed(groups: seq<Group>, g: Group): (r: seq<Group>) {
    var i := GroupIndex(groups, g.kind, Some(g.key));
    if i < |groups| then groups[i := g] else groups
  }

  lemma {:induction false} ReplacedGroup(groups: seq<Group>, i: nat, g: Group, kind: bytes)
    requires i < |groups| && groups[i].kind == g.kind
    requires forall j | 0 <= j < i :: groups[j].kind != g.kind
    ensures GroupOf(groups[i := g], kind) == if kind == g.kind then Some(g) else GroupOf(groups, kind)
  {
    if i > 0 {
      assert groups[i := g][1..] == groups[1..][i - 1 := g];
      ReplacedGroup(groups[1..], i - 1, g, kind);
    } else {
      assert groups[0 := g][1..] == groups[1..];
    }
  }

  lemma {:induction false} AppendedGroup(groups: seq<Group>, g: Group, kind: bytes)
    requires GroupOf(groups, g.kind) == None
    ensures GroupOf(groups + [g], kind) == if kind == g.kind then Some(g) else GroupOf(groups, kind)
  {
    if groups == [] {
      assert (groups + [g])[0] == g;
    } else {
      assert (groups + [g])[1..] == groups[1..] + [g];
      AppendedGroup(groups[1..], g, kind);
    }
  }

  lemma {:induction false} GroupOfIndex(groups: seq<Group>, kind: bytes)
    ensures var i := GroupIndex(groups, kind, None);
            GroupOf(groups, kind) == if i < |groups| then Some(groups[i]) else None
  {
    if groups != [] {
      GroupOfIndex(groups[1..], kind);
    }
  }

  /** Joining sets the group of that type and no other type's, except that a user in the
      maximal number of types joins no further one. */
  lemma JoinedGroup(groups: seq<Group>, g: Group, kind: bytes)
    ensures GroupOf(Joined(groups, g), kind)
              == if kind == g.kind && (GroupOf(groups, kind).Some? || |groups| < MAX_GROUPS) then Some(g)
                 else GroupOf(groups, kind)
  {
    var i := GroupIndex(groups, g.kind, None);
    GroupOfIndex(groups, g.kind);
    if i < |groups| {
      ReplacedGroup(groups, i, g, kind);
    } else if |groups| < MAX_GROUPS {
      AppendedGroup(groups, g, kind);
    }
  }

  /** The types stay distinct, so a refreshed group is the one the user is in. */
  ghost predicate DistinctKinds(groups: seq<Group>) {
    forall i, j | 0 <= i < j < |groups| :: groups[i].kind != groups[j].kind
  }

  lemma RefreshedGroup(groups: seq<Group>, g: Group, kind: bytes)
    requires DistinctKinds(groups)
    ensures GroupOf(Refreshed(groups, g), kind)
              == if kind == g.kind && GroupOf(groups, kind).Some? && GroupOf(groups, kind).value.key == g.key
                 then Some(g)
                 else GroupOf(groups, kind)
    ensures DistinctKinds(Refreshed(groups, g)) && DistinctKinds(Joined(groups, g))
  {
    var i, k := GroupIndex(groups, g.kind, Some(g.key)), GroupIndex(groups, g.kind, None);
    GroupOfIndex(groups, g.kind);
    if i < |groups| {
      ReplacedGroup(groups, i, g, kind);
    }
  }

  datatype Status = Unknown | Pending | Success | Failed | Superseded

  /** id 0 marks an unused slot. */
  datatype Record = Record(id: nat, gen: nat, status: Status)

  /** What came back for a request. */
  datatype Response = Unusable | Parsed(partial: bool, flags: seq<Flag>)

  /** Where the sender is in serving a reload. */
  datatype Stage =
    | Resting
    | Took(id: nat, gen: nat)
    | Asked(id: nat, gen: nat, request: Context)
    | Ended(id: nat, status: Status)

  /** Outcomes are only ever added, never changed or forgotten. */
  ghost predicate Grows(a: map<nat, Status>, b: map<nat, Status>) {
    forall id | id in a :: id in b && b[id] == a[id]
  }

  /** The records are in use from the front, their tickets are distinct, a settled record shows
      the outcome its ticket got, and a pending one has none yet. */
  ghost predicate RecordsOk(h: seq<Record>, lastId: nat, outcome: map<nat, Status>) {
    && |h| == HISTORY_CAP
    && (forall i | 0 <= i < |h| :: h[i].id <= lastId)
    && (forall i, j | 0 <= i < j < |h| :: h[i].id == 0 ==> h[j].id == 0)
    && (forall i, j | 0 <= i < j < |h| :: h[i].id == h[j].id ==> h[i].id == 0)
    && (forall i | 0 <= i < |h| && h[i].status == Pending :: h[i].id != 0 && h[i].id !in outcome)
    && (forall i | 0 <= i < |h| && h[i].id != 0 && h[i].status != Pending ::
          h[i].id in outcome && outcome[h[i].id] == h[i].status)
    && (forall id | id in outcome :: id <= lastId)
  }

  /** Settling one pending record keeps all that. */
  lemma SettleOne(h: seq<Record>, i: nat, status: Status, lastId: nat, outcome: map<nat, Status>)
    requires RecordsOk(h, lastId, outcome) && i < |h| && h[i].status == Pending && status != Pending
    ensures RecordsOk(h[i := h[i].(status := status)], lastId, outcome[h[i].id := status])
    ensures Grows(outcome, outcome[h[i].id := status])
  {
  }

  /** A fresh pending ticket may take the place of a settled or unused record. */
  lemma AdmitOne(h: seq<Record>, i: nat, id: nat, gen: nat, lastId: nat, outcome: map<nat, Status>)
    requires RecordsOk(h, lastId, outcome) && i < |h| && h[i].status != Pending
    requires 0 < id <= lastId && id !in outcome && forall j | 0 <= j < |h| :: h[j].id != id
    requires h[i].id == 0 ==> forall j | 0 <= j < i :: h[j].id != 0
    ensures RecordsOk(h[i := Record(id, gen, Pending)], lastId, outcome)
  {
  }

  /** The scheduling fields. */
  datatype Jobs = Jobs(gen: nat, queued: bool, queuedId: nat, inflight: bool, inflightId: nat, inflightGen: nat)

  /** The job with this id serves the current context. */
  predicate Serves(j: Jobs, id: nat) {
    (j.queued && j.queuedId == id) || (j.inflight && j.inflightGen == j.gen && j.inflightId == id)
  }

  /** A pending ticket belongs to the current context and names the job that serves it, and
      a ticket that names that job is pending. */
  ghost predicate TicketsOk(h: seq<Record>, j: Jobs) {
    && (forall i | 0 <= i < |h| && h[i].status == Pending :: h[i].gen == j.gen && Serves(j, h[i].id))
    && (forall i | 0 <= i < |h| && h[i].id != 0 && Serves(j, h[i].id) :: h[i].status == Pending)
  }

  ghost predicate NonePending(h: seq<Record>) {
    forall i | 0 <= i < |h| :: h[i].status != Pending
  }

  lemma IdleTickets(h: seq<Record>, j: Jobs)
    requires NonePending(h) && !j.queued && !(j.inflight && j.inflightGen == j.gen)
    ensures TicketsOk(h, j)
  {
  }

  /** When the generation moves on, or the sender is gone, no ticket stays pending. */
  lemma SettledLeavesNone(h: seq<Record>, j: Jobs, keep: Option<nat>, status: Status)
    requires TicketsOk(h, j) && status != Pending && (keep.Some? ==> keep.value != j.gen)
    ensures NonePending(Settled(h, keep, status))
  {
  }

  /** The job in flight ends: its ticket is settled, a queued job's ticket is not touched. */
  lemma CompletedTickets(h: seq<Record>, j: Jobs, status: Status)
    requires TicketsOk(h, j) && j.inflight && status != Pending
    requires j.queued ==> !(j.inflightGen == j.gen) && j.queuedId != j.inflightId
    ensures TicketsOk(Marked(h, j.inflightId, status), j.(inflight := false, inflightId := 0, inflightGen := 0))
  {
  }

  /** The pending record of a ticket gets a status. */
  function Marked(h: seq<Record>, id: nat, status: Status): (r: seq<Record>)
    ensures |r| == |h|
    ensures forall i | 0 <= i < |h| ::
              r[i] == if h[i].id == id && h[i].status == Pending then h[i].(status := status) else h[i]
  {
    seq(|h|, i requires 0 <= i < |h| =>
      if h[i].id == id && h[i].status == Pending then h[i].(status := status) else h[i])
  }

  /** Settle every pending record, except those of generation keep. */
  function Settled(h: seq<Record>, keep: Option<nat>, status: Status): (r: seq<Record>)
    ensures |r| == |h|
    ensures forall i | 0 <= i < |h| :: r[i] == SettledOne(h[i], keep, status)
  {
    seq(|h|, i requires 0 <= i < |h| => SettledOne(h[i], keep, status))
  }

  function SettledOne(r: Record, keep: Option<nat>, status: Status): Record {
    if r.status == Pending && (keep.None? || r.gen != keep.value) then r.(status := status) else r
  }

  /** What a thread may do next. */
  datatype Turn =
    | DoIdentify(id: bytes, person: seq<Prop>)
    | DoReset(id: bytes)
    | DoGroup(kind: bytes, key: bytes, props: seq<Prop>)
    | DoSyncPerson(id: bytes, person: seq<Prop>)
    | DoSyncGroup(kind: bytes, key: bytes, props: seq<Prop>)
    | DoRefresh
    | DoReload
    | DoRead(key: bytes, events: bool)
    | DoTake
    | DoBuild
    | DoIngest(r: Response)
    | DoComplete
    | DoAbort

  /** A parsed response holds at most MAX_FLAGS flags. */
  predicate TurnOk(t: Turn) {
    t.DoIngest? && t.r.Parsed? ==> |t.r.flags| <= MAX_FLAGS
  }

  /** The turn brings in a response that holds the flag. */
  ghost predicate Gave(t: Turn, f: Flag) {
    t.DoIngest? && t.r.Parsed? && exists g | g in t.r.flags :: Bare(g) == f
  }

  // ------------------------------------------------------------------ traces

  /** What a turn finds: where the sender is, the context, and its generation. */
  datatype Snap = Snap(stage: Stage, ctx: Context, gen: nat)

  /** What a turn may do to that: the context changes only with its generation, and a request comes
      only from a build, out of the context that it finds. */
  predicate Moves(a: Snap, t: Turn, b: Snap) {
    && b.gen >= a.gen && (b.gen == a.gen ==> b.ctx == a.ctx)
    && (b.stage.Asked? ==> b.stage == a.stage || (t.DoBuild? && b == a.(stage := b.stage) && Builds(a, b.stage)))
  }

  predicate Builds(a: Snap, s: Stage) {
    a.stage.Took? && a.stage.gen == a.gen && s == Asked(a.stage.id, a.gen, a.ctx)
  }

  /** The turn brings in the answer, to a request that was built from the context it finds. */
  ghost predicate AnsweredAt(a: Snap, t: Turn, x: (Context, Flag)) {
    Gave(t, x.1) && a.stage.Asked? && a.stage.request == x.0 == a.ctx && a.stage.gen == a.gen
  }

  /** A run: what each of its turns finds, and what is there at its end. */
  ghost predicate Path(trace: seq<Snap>, turns: seq<Turn>) {
    |trace| == |turns| + 1 && forall i | 0 <= i < |turns| :: Moves(trace[i], turns[i], trace[i + 1])
  }

  lemma {:induction false} GenGrows(trace: seq<Snap>, turns: seq<Turn>, i: nat, j: nat)
    requires Path(trace, turns) && i <= j < |trace|
    ensures trace[i].gen <= trace[j].gen && (trace[i].gen == trace[j].gen ==> trace[i].ctx == trace[j].ctx)
    decreases j
  {
    if i < j {
      GenGrows(trace, turns, i, j - 1);
      assert Moves(trace[j - 1], turns[j - 1], trace[j]);
    }
  }

  /** A request that is under way at turn k was built at an earlier turn, from the context found there. */
  lemma {:induction false} BuiltBefore(trace: seq<Snap>, turns: seq<Turn>, k: nat) returns (b: nat)
    requires Path(trace, turns) && k < |trace| && trace[k].stage.Asked? && !trace[0].stage.Asked?
    ensures b < k && turns[b].DoBuild? && Builds(trace[b], trace[k].stage)
  {
    assert Moves(trace[k - 1], turns[k - 1], trace[k]);
    if trace[k - 1].stage == trace[k].stage {
      b := BuiltBefore(trace, turns, k - 1);
    } else {
      b := k - 1;
    }
  }

  /** Where an answer comes from: its request was built at an earlier turn from the very context it
      is filed under, and that was the context at every turn from the building to the answer. */
  lemma AnswerIsCurrent(trace: seq<Snap>, turns: seq<Turn>, k: nat, x: (Context, Flag)) returns (b: nat)
    requires Path(trace, turns) && k < |turns| && AnsweredAt(trace[k], turns[k], x) && !trace[0].stage.Asked?
    ensures b < k && turns[b].DoBuild? && Builds(trace[b], trace[k].stage)
    ensures forall m | b <= m <= k :: trace[m].ctx == x.0 && trace[m].gen == trace[k].gen
  {
    b := BuiltBefore(trace, turns, k);
    forall m | b <= m <= k ensures trace[m].ctx == x.0 && trace[m].gen == trace[k].gen {
      GenGrows(trace, turns, b, m);
      GenGrows(trace, turns, m, k);
    }
  }

  class Store {
    var ctx: Context
    var gen: nat
    var lastId: nat
    const history: array<Record>
    var queued: bool
    var queuedId: nat
    var queuedGen: nat
    var inflight: bool
    var inflightId: nat
    var inflightGen: nat
    var cache: seq<Flag>
    var running: bool
    var stage: Stage

    /** The context each generation stands for, every flag ever given in answer to a request, and
        the outcome of every ticket ever settled. */
    ghost var contextOf: map<nat, Context>
    ghost var answers: set<(Context, Flag)>
    ghost var outcome: map<nat, Status>

    // ------------------------------------------------------------ invariants

    ghost function Scheduling(): Jobs
      reads this
    {
      Jobs(gen, queued, queuedId, inflight, inflightId, inflightGen)
    }

    ghost predicate JobsOk()
      reads this
    {
      && (queued ==> queuedGen == gen && 0 < queuedId <= lastId && queuedId !in outcome)
      && (inflight ==> inflightGen <= gen && 0 < inflightId <= lastId)
      && (inflight && inflightGen == gen ==> inflightId !in outcome)
      && (queued ==> !(inflight && inflightGen == gen))
      && (queued && inflight ==> queuedId != inflightId)
    }

    ghost predicate HistoryOk()
      reads this, history
    {
      RecordsOk(history[..], lastId, outcome) && TicketsOk(history[..], Scheduling())
    }

    ghost predicate StageOk()
      reads this
    {
      match stage
      case Resting => !inflight
      case Took(id, g) => inflight && inflightId == id && inflightGen == g
      case Asked(id, g, request) =>
        inflight && inflightId == id && inflightGen == g && g in contextOf && contextOf[g] == request
      case Ended(id, status) => inflight && inflightId == id && status != Pending && status != Unknown
    }

    /** Every cached flag answers a request built from exactly the current context. */
    ghost predicate CacheOk()
      reads this
    {
      && |cache| <= MAX_FLAGS && Answered(cache, ctx, answers)
      && gen in contextOf && contextOf[gen] == ctx
      && (forall g | g in contextOf :: g <= gen)
      && |ctx.groups| <= MAX_GROUPS && DistinctKinds(ctx.groups)
    }

    ghost predicate Valid()
      reads this, history
    {
      HistoryOk() && JobsOk() && StageOk() && CacheOk()
    }

    /** At most one ticket is pending, in every reachable state. */
    lemma OnePending(i: nat, j: nat)
      requires Valid() && i < HISTORY_CAP && j < HISTORY_CAP
      requires history[i].status == Pending && history[j].status == Pending
      ensures i == j
    {
    }

    constructor (distinctId: bytes, lastId: nat)
      ensures Valid() && fresh(history)
      ensures ctx == Context(distinctId, [], []) && cache == [] && !queued && !inflight && stage == Resting && running
    {
      ctx, gen, this.lastId := Context(distinctId, [], []), 0, lastId;
      history := new Record[HISTORY_CAP](i => Record(0, 0, Unknown));
      queued, queuedId, queuedGen := false, 0, 0;
      inflight, inflightId, inflightGen := false, 0, 0;
      cache, running, stage := [], true, Resting;
      contextOf, answers, outcome := map[0 := Context(distinctId, [], [])], {}, map[];
    }

    // --------------------------------------------------------------- tickets

    method FindRecord(id: nat) returns (i: nat)
      requires history.Length == HISTORY_CAP
      ensures i <= HISTORY_CAP && (i < HISTORY_CAP ==> history[i].id == id)
      ensures i == HISTORY_CAP ==> forall j | 0 <= j < HISTORY_CAP :: history[j].id != id
    {
      i := 0;
      while i < HISTORY_CAP
        invariant 0 <= i <= HISTORY_CAP
        invariant forall j | 0 <= j < i :: history[j].id != id
      {
        if history[i].id == id {
          return;
        }
        i := i + 1;
      }
    }

    /** The slot for a ticket: its own, else a free one, else the oldest settled one. */
    method ChooseSlot(id: nat) returns (slot: int)
      requires RecordsOk(history[..], lastId, outcome) && id != 0
      ensures -1 <= slot < HISTORY_CAP
      ensures (exists j | 0 <= j < HISTORY_CAP :: history[j].id == id) ==> slot >= 0 && history[slot].id == id
      ensures slot >= 0 ==> history[slot].id == id || history[slot].status != Pending
      ensures slot >= 0 && history[slot].id == 0 ==> forall j | 0 <= j < slot :: history[j].id != 0
      ensures slot >= 0 && history[slot].id != 0 && history[slot].id != id ==>
                forall j | 0 <= j < HISTORY_CAP ::
                  history[j].id != 0 && (history[j].status != Pending ==> history[slot].id <= history[j].id)
      ensures slot < 0 ==> forall j | 0 <= j < HISTORY_CAP :: history[j].status == Pending
    {
      slot := -1;
      var i := 0;
      while i < HISTORY_CAP
        invariant 0 <= i <= HISTORY_CAP && -1 <= slot < i
        invariant forall j | 0 <= j < i :: history[j].id != id && history[j].id != 0
        invariant slot < 0 ==> forall j | 0 <= j < i :: history[j].status == Pending
        invariant slot >= 0 ==> history[slot].status != Pending
        invariant slot >= 0 ==>
                    forall j | 0 <= j < i && history[j].status != Pending :: history[slot].id <= history[j].id
      {
        if history[i].id == id {
          return i;
        }
        if history[i].id == 0 {
          return i;
        }
        if history[i].status != Pending && (slot < 0 || history[i].id < history[slot].id) {
          slot := i;
        }
        i := i + 1;
      }
    }

    /** Settle a ticket that is still pending; a settled one is left alone. */
    method MarkReload(id: nat, status: Status)
      requires RecordsOk(history[..], lastId, outcome) && status != Pending && status != Unknown
      modifies history, this`outcome
      ensures RecordsOk(history[..], lastId, outcome) && Grows(old(outcome), outcome)
      ensures outcome == old(outcome) || outcome == old(outcome)[id := status]
      ensures history[..] == Marked(old(history[..]), id, status)
    {
      var i := FindRecord(id);
      if i < HISTORY_CAP && history[i].status == Pending {
        SettleOne(history[..], i, status, lastId, outcome);
        ghost var next := history[..][i := history[i].(status := status)];
        history[i] := history[i].(status := status);
        outcome := outcome[id := status];
        assert history[..] == next;
      }
      assert history[..] == Marked(old(history[..]), id, status);
    }

    /** Settle the pending tickets, all of them or those of other generations than keep. */
    method SettlePending(keep: Option<nat>, status: Status)
      requires RecordsOk(history[..], lastId, outcome) && status != Pending
      modifies history, this`outcome
      ensures RecordsOk(history[..], lastId, outcome) && Grows(old(outcome), outcome)
      ensures history[..] == Settled(old(history[..]), keep, status)
    {
      ghost var goal := Settled(history[..], keep, status);
      var i := 0;
      while i < HISTORY_CAP
        invariant 0 <= i <= HISTORY_CAP
        invariant RecordsOk(history[..], lastId, outcome) && Grows(old(outcome), outcome)
        invariant forall j | 0 <= j < i :: history[j] == goal[j]
        invariant forall j | i <= j < HISTORY_CAP :: history[j] == old(history[j])
      {
        if history[i].id != 0 && history[i].status == Pending && (keep.None? || history[i].gen != keep.value) {
          SettleOne(history[..], i, status, lastId, outcome);
          ghost var next := history[..][i := history[i].(status := status)];
          outcome := outcome[history[i].id := status];
          history[i] := history[i].(status := status);
          assert history[..] == next;
        }
        i := i + 1;
      }
      assert history[..] == goal;
    }

    // ---------------------------------------------------- caller transitions

    /** The identity or groups changed: empty the cache, start a generation, drop stale work. */
    method ContextChanged(next: Context)
      requires Valid() && |next.groups| <= MAX_GROUPS && DistinctKinds(next.groups)
      modifies this`ctx, this`gen, this`cache, this`contextOf, this`queued, this`outcome, history
      ensures Valid() && ctx == next && gen == old(gen) + 1 && cache == [] && !queued
      ensures Grows(old(outcome), outcome)
      ensures NonePending(history[..])
    {
      SettledLeavesNone(history[..], Scheduling(), Some(gen + 1), Superseded);
      cache := [];
      ctx, gen := next, gen + 1;
      contextOf := contextOf[gen := next];
      Supersede();
      IdleTickets(history[..], Scheduling());
    }

    /** Settle the tickets of other generations and drop a job queued for one. */
    method Supersede()
      requires RecordsOk(history[..], lastId, outcome)
      modifies this`queued, this`outcome, history
      ensures RecordsOk(history[..], lastId, outcome) && Grows(old(outcome), outcome)
      ensures history[..] == Settled(old(history[..]), Some(gen), Superseded)
      ensures queued == (old(queued) && queuedGen == gen)
    {
      SettlePending(Some(gen), Superseded);
      if queued && queuedGen != gen {
        queued := false;
      }
    }

    method Identify(distinctId: bytes, person: seq<Prop>)
      requires Valid()
      modifies this`ctx, this`gen, this`cache, this`contextOf, this`queued, this`outcome, history
      ensures Valid() && Grows(old(outcome), outcome) && gen == old(gen) + 1
      ensures ctx == old(ctx).(distinctId := distinctId, person := person) && cache == []
    {
      ContextChanged(ctx.(distinctId := distinctId, person := person));
    }

    method Reset(anonymousId: bytes)
      requires Valid()
      modifies this`ctx, this`gen, this`cache, this`contextOf, this`queued, this`outcome, history
      ensures Valid() && Grows(old(outcome), outcome) && gen == old(gen) + 1
      ensures ctx == Context(anonymousId, [], []) && cache == []
    {
      ContextChanged(Context(anonymousId, [], []));
    }

    /** Join a group or change its key and properties. The cache is emptied even when nothing
        changed in value; a new type beyond the limit is ignored, and then the cache stays. */
    method SetGroup(kind: bytes, key: bytes, props: seq<Prop>) returns (changed: bool)
      requires Valid()
      modifies this`ctx, this`gen, this`cache, this`contextOf, this`queued, this`outcome, history
      ensures Valid() && Grows(old(outcome), outcome)
      ensures ctx == old(ctx).(groups := Joined(old(ctx).groups, Group(kind, key, props)))
      ensures changed <==> GroupIndex(old(ctx).groups, kind, None) < |old(ctx).groups| || |old(ctx).groups| < MAX_GROUPS
      ensures changed ==> cache == [] && gen == old(gen) + 1
      ensures !changed ==> gen == old(gen) && cache == old(cache)
    {
      var g := Group(kind, key, props);
      RefreshedGroup(ctx.groups, g, kind);
      var i := FindGroup(kind, None);
      if i < |ctx.groups| {
        ContextChanged(ctx.(groups := ctx.groups[i := g]));
        return true;
      }
      if |ctx.groups| < MAX_GROUPS {
        ContextChanged(ctx.(groups := ctx.groups + [g]));
        return true;
      }
      return false;
    }

    method FindGroup(kind: bytes, key: Option<bytes>) returns (i: nat)
      ensures i == GroupIndex(ctx.groups, kind, key)
    {
      i := 0;
      while i < |ctx.groups| && !(ctx.groups[i].kind == kind && (key.Some? ==> ctx.groups[i].key == key.value))
        invariant 0 <= i <= |ctx.groups|
        invariant forall j | 0 <= j < i ::
                    !(ctx.groups[j].kind == kind && (key.Some? ==> ctx.groups[j].key == key.value))
      {
        i := i + 1;
      }
      GroupIndexIs(ctx.groups, kind, key, i);
    }

    /** The sender scrubbed an identify event of the current user: its properties become the
        person properties. An event of another user changes nothing. */
    method SyncPerson(distinctId: bytes, person: seq<Prop>)
      requires Valid()
      modifies this`ctx, this`gen, this`cache, this`contextOf, this`queued, this`outcome, history
      ensures Valid() && Grows(old(outcome), outcome)
      ensures distinctId == old(ctx).distinctId ==>
                ctx == old(ctx).(person := person) && cache == [] && gen == old(gen) + 1
      ensures distinctId != old(ctx).distinctId ==> ctx == old(ctx) && cache == old(cache) && gen == old(gen)
    {
      if ctx.distinctId == distinctId {
        ContextChanged(ctx.(person := person));
      }
    }

    /** Likewise for a group event: the properties of the group it names, if it is still current. */
    method SyncGroup(kind: bytes, key: bytes, props: seq<Prop>)
      requires Valid()
      modifies this`ctx, this`gen, this`cache, this`contextOf, this`queued, this`outcome, history
      ensures Valid() && Grows(old(outcome), outcome)
      ensures ctx == old(ctx).(groups := Refreshed(old(ctx).groups, Group(kind, key, props)))
      ensures var known := GroupIndex(old(ctx).groups, kind, Some(key)) < |old(ctx).groups|;
              if known then cache == [] && gen == old(gen) + 1 else cache == old(cache) && gen == old(gen)
    {
      var g := Group(kind, key, props);
      RefreshedGroup(ctx.groups, g, kind);
      var i := FindGroup(kind, Some(key));
      if i < |ctx.groups| {
        ContextChanged(ctx.(groups := ctx.groups[i := g]));
      }
    }

    /** The job that serves the current context: the one in flight, the one queued, or a new one. */
    method Schedule() returns (id: nat)
      requires Valid()
      modifies this`lastId, this`queued, this`queuedId, this`queuedGen
      ensures Valid() && 0 < id <= lastId && Serves(Scheduling(), id) && id !in outcome
      ensures if old(queued) || old(inflight && inflightGen == gen) then lastId == old(lastId)
              else id == lastId == old(lastId) + 1
      ensures forall j | 0 <= j < HISTORY_CAP && history[j].status == Pending :: history[j].id == id
      ensures forall j | 0 <= j < HISTORY_CAP && history[j].id == id :: history[j].status == Pending
    {
      if inflight && inflightGen == gen {
        return inflightId;
      }
      if queued && queuedGen == gen {
        return queuedId;
      }
      if queued {
        // A queued job always serves the current context, so there is never a stale one to discard.
        assert false;
      }
      QueueNew();
      return lastId;
    }

    method QueueNew()
      requires HistoryOk() && JobsOk() && !queued && !(inflight && inflightGen == gen)
      modifies this`lastId, this`queued, this`queuedId, this`queuedGen
      ensures HistoryOk() && JobsOk() && queued && queuedId == lastId == old(lastId) + 1
      ensures forall j | 0 <= j < HISTORY_CAP :: history[j].status != Pending && history[j].id != lastId
    {
      lastId := lastId + 1;
      queued, queuedId, queuedGen := true, lastId, gen;
    }

    method AutoRefresh()
      requires Valid()
      modifies this`lastId, this`queued, this`queuedId, this`queuedGen
      ensures Valid() && (queued || (inflight && inflightGen == gen))
    {
      var _ := Schedule();
    }

    /** Ask for a reload. There is always room for the ticket, so the answer "full" never comes. */
    method ReloadAsync() returns (ok: bool, full: bool, id: nat)
      requires Valid()
      modifies this`lastId, this`queued, this`queuedId, this`queuedGen, history
      ensures Valid() && Grows(old(outcome), outcome)
      ensures !full && ok == running
      ensures ok ==> Serves(Scheduling(), id)
                     && exists i | 0 <= i < HISTORY_CAP :: history[i] == Record(id, gen, Pending)
      ensures !ok ==> id == 0 && history[..] == old(history[..])
    {
      if !running {
        return false, false, 0;
      }
      id := Schedule();
      var slot := ChooseSlot(id);
      assert history[0].status != Pending || history[1].status != Pending;
      full := slot < 0;
      ok := !full;
      if ok {
        FileTicket(slot, id);
      }
    }

    /** Put the ticket into its slot, unless it is there. */
    method FileTicket(slot: nat, id: nat)
      requires HistoryOk() && slot < HISTORY_CAP && 0 < id <= lastId && id !in outcome && Serves(Scheduling(), id)
      requires history[slot].id == id || history[slot].status != Pending
      requires forall j | 0 <= j < HISTORY_CAP && history[j].id == id :: history[j].status == Pending && j == slot
      requires forall j | 0 <= j < HISTORY_CAP && history[j].status == Pending :: history[j].id == id
      requires history[slot].id == 0 ==> forall j | 0 <= j < slot :: history[j].id != 0
      modifies history
      ensures HistoryOk() && history[slot] == Record(id, gen, Pending)
    {
      if history[slot].id != id {
        AdmitOne(history[..], slot, id, gen, lastId, outcome);
        ghost var next := history[..][slot := Record(id, gen, Pending)];
        history[slot] := Record(id, gen, Pending);
        assert history[..] == next;
      }
    }

    method ReloadStatus(id: nat) returns (status: Status)
      requires Valid()
      ensures id == 0 ==> status == Unknown
      ensures id != 0 ==> forall j | 0 <= j < HISTORY_CAP && history[j].id == id :: status == history[j].status
      ensures (forall j | 0 <= j < HISTORY_CAP :: history[j].id != id) ==> status == Unknown
      ensures status != Unknown && status != Pending ==> id in outcome && outcome[id] == status
    {
      if id == 0 {
        return Unknown;
      }
      var i := FindRecord(id);
      assert i < HISTORY_CAP ==> history[i].id == id;
      status := if i < HISTORY_CAP then history[i].status else Unknown;
    }

    // ---------------------------------------------------- sender transitions

    method TakeFetch() returns (have: bool)
      requires Valid() && stage == Resting
      modifies this`queued, this`inflight, this`inflightId, this`inflightGen, this`stage
      ensures Valid() && have == old(queued) && !queued
      ensures stage == if have then Took(old(queuedId), gen) else Resting
    {
      have := queued && !inflight;
      if have {
        inflight, inflightId, inflightGen := true, queuedId, queuedGen;
        queued := false;
        stage := Took(inflightId, inflightGen);
      }
    }

    /** Build the request from the context, unless the context moved on since the job was queued. */
    method BuildRequest()
      requires Valid() && stage.Took?
      modifies this`stage
      ensures Valid()
      ensures old(stage).gen == gen ==> stage == Asked(old(stage).id, gen, ctx)
      ensures old(stage).gen != gen ==> stage == Ended(old(stage).id, Superseded)
    {
      if stage.gen != gen {
        stage := Ended(stage.id, Superseded);
      } else {
        stage := Asked(stage.id, gen, ctx);
      }
    }

    /** Apply a response. One for an older context changes nothing and ends superseded; one for the
        current context replaces the cache or, if partial, the flags it names. */
    method Ingest(r: Response)
      requires Valid() && stage.Asked? && (r.Parsed? ==> |r.flags| <= MAX_FLAGS)
      modifies this`cache, this`answers, this`stage
      ensures Valid() && stage.Ended? && stage.id == old(stage).id
      ensures answers == old(answers)
                         + if old(stage).gen == gen && r.Parsed? then Given(old(stage).request, r.flags) else {}
      ensures old(stage).gen != gen ==> cache == old(cache) && stage.status == Superseded
      ensures old(stage).gen == gen ==>
                match r
                case Unusable => cache == old(cache) && stage.status == Failed
                case Parsed(partial, fs) =>
                  if partial then cache == Merged(old(cache), fs) && stage.status == Failed
                  else cache == Replaced(old(cache), fs) && stage.status == Success
    {
      var id, g, request := stage.id, stage.gen, stage.request;
      if g != gen {
        stage := Ended(id, Superseded);
        return;
      }
      assert request == ctx;
      var status := Apply(r, request);
      stage := Ended(id, status);
    }

    method Apply(r: Response, ghost request: Context) returns (status: Status)
      requires CacheOk() && request == ctx && (r.Parsed? ==> |r.flags| <= MAX_FLAGS)
      modifies this`cache, this`answers
      ensures CacheOk() && answers == old(answers) + if r.Parsed? then Given(request, r.flags) else {}
      ensures match r
              case Unusable => cache == old(cache) && status == Failed
              case Parsed(partial, fs) =>
                if partial then cache == Merged(old(cache), fs) && status == Failed
                else cache == Replaced(old(cache), fs) && status == Success
    {
      if r.Unusable? {
        return Failed;
      }
      answers := answers + Given(request, r.flags);
      if r.partial {
        MergedAnswered(cache, r.flags, ctx, answers);
        MergeInto(r.flags);
        return Failed;
      }
      ReplacedAnswered(cache, r.flags, ctx, answers);
      cache := ReplaceWith(r.flags);
      return Success;
    }

    method ReplaceWith(parsed: seq<Flag>) returns (fresh_: seq<Flag>)
      ensures fresh_ == Replaced(cache, parsed)
    {
      fresh_ := [];
      var i := 0;
      while i < |parsed|
        invariant 0 <= i <= |parsed| && |fresh_| == i
        invariant forall j | 0 <= j < i :: fresh_[j] == Latched(cache, parsed[j])
      {
        var at := Find(cache, parsed[i].key);
        var keep := at < |cache| && cache[at].called && SameValue(cache[at], parsed[i]);
        fresh_ := fresh_ + [parsed[i].(called := keep)];
        i := i + 1;
      }
    }

    method MergeInto(parsed: seq<Flag>)
      modifies this`cache
      ensures cache == Merged(old(cache), parsed)
    {
      var i := 0;
      assert parsed[0..] == parsed;
      while i < |parsed|
        invariant 0 <= i <= |parsed|
        invariant Merged(old(cache), parsed) == Merged(cache, parsed[i..])
      {
        assert parsed[i..][1..] == parsed[i + 1..];
        UpsertFlag(parsed[i]);
        i := i + 1;
      }
    }

    /** Overwrite the flag of that key, or add it while there is room. */
    method UpsertFlag(f: Flag)
      modifies this`cache
      ensures cache == Upsert(old(cache), f)
    {
      var at := Find(cache, f.key);
      if at < |cache| {
        cache := cache[at := f.(called := cache[at].called && SameValue(cache[at], f))];
      } else if |cache| < MAX_FLAGS {
        cache := cache + [f.(called := false)];
      }
    }

    /** Report the outcome and free the sender for the next job. */
    method CompleteFetch()
      requires Valid() && stage.Ended?
      modifies this`inflight, this`inflightId, this`inflightGen, this`stage, this`outcome, history
      ensures Valid() && stage == Resting && Grows(old(outcome), outcome)
      ensures history[..] == Marked(old(history[..]), old(stage).id, old(stage).status)
    {
      EndJob(stage.id, stage.status);
      stage := Resting;
    }

    method EndJob(id: nat, status: Status)
      requires HistoryOk() && JobsOk() && inflight && inflightId == id && status != Pending && status != Unknown
      modifies this`inflight, this`inflightId, this`inflightGen, this`outcome, history
      ensures HistoryOk() && JobsOk() && !inflight && Grows(old(outcome), outcome)
      ensures history[..] == Marked(old(history[..]), id, status)
    {
      CompletedTickets(history[..], Scheduling(), status);
      inflight, inflightId, inflightGen := false, 0, 0;
      MarkReload(id, status);
    }

    /** The sender is gone: nothing pending can be served any more. */
    method AbortPending()
      requires Valid() && stage == Resting
      modifies this`queued, this`inflight, this`running, this`outcome, history
      ensures Valid() && !queued && !inflight && !running && Grows(old(outcome), outcome)
      ensures NonePending(history[..])
    {
      SettledLeavesNone(history[..], Scheduling(), None, Failed);
      running := false;
      SettlePending(None, Failed);
      queued, inflight := false, false;
      IdleTickets(history[..], Scheduling());
    }

    /** Read a flag; emit says that an exposure event is due, once per value. */
    method Resolve(key: bytes, sendEvents: bool) returns (found: bool, emit: bool)
      requires Valid()
      modifies this`cache
      ensures |cache| == |old(cache)| && forall i | 0 <= i < |cache| :: Bare(cache[i]) == Bare(old(cache)[i])
      ensures Valid() && found == (Find(old(cache), key) < |old(cache)|)
      ensures emit <==> found && sendEvents && !old(cache)[Find(old(cache), key)].called
      ensures emit ==> Find(cache, key) == Find(old(cache), key) && cache[Find(cache, key)].called
      ensures !emit ==> cache == old(cache)
    {
      var i := Find(cache, key);
      found, emit := i < |cache|, false;
      if found && sendEvents && !cache[i].called {
        ghost var before := cache;
        cache := cache[i := cache[i].(called := true)];
        FindFirst(cache, key, i);
        emit := true;
      }
    }

    // ------------------------------------------------------------------- runs

    ghost function Now(): Snap
      reads this
    {
      Snap(stage, ctx, gen)
    }

    /** One step of one thread; a step that is not enabled does nothing. */
    method Step(t: Turn)
      requires Valid() && TurnOk(t)
      modifies this, history
      ensures Valid() && Grows(old(outcome), outcome) && Moves(old(Now()), t, Now())
      ensures forall x | x in answers && x !in old(answers) :: AnsweredAt(old(Now()), t, x)
    {
      if t.DoTake? || t.DoBuild? || t.DoIngest? || t.DoComplete? || t.DoAbort? {
        SenderTurn(t);
      } else {
        CallerTurn(t);
      }
    }

    method CallerTurn(t: Turn)
      requires Valid()
      modifies this, history
      ensures Valid() && Grows(old(outcome), outcome) && answers == old(answers)
      ensures stage == old(stage) && gen >= old(gen) && (gen == old(gen) ==> ctx == old(ctx))
    {
      match t {
        case DoRefresh => AutoRefresh();
        case DoReload => var _, _, _ := ReloadAsync();
        case DoRead(key, events) => var _, _ := Resolve(key, events);
        case _ => ContextTurn(t);
      }
    }

    method ContextTurn(t: Turn)
      requires Valid()
      modifies this`ctx, this`gen, this`cache, this`contextOf, this`queued, this`outcome, history
      ensures Valid() && Grows(old(outcome), outcome)
      ensures gen >= old(gen) && (gen == old(gen) ==> ctx == old(ctx))
    {
      match t {
        case DoIdentify(id, person) => Identify(id, person);
        case DoReset(id) => Reset(id);
        case DoGroup(kind, key, props) => var _ := SetGroup(kind, key, props);
        case DoSyncPerson(id, person) => SyncPerson(id, person);
        case DoSyncGroup(kind, key, props) => SyncGroup(kind, key, props);
        case _ =>
      }
    }

    method SenderTurn(t: Turn)
      requires Valid() && TurnOk(t)
      modifies this, history
      ensures Valid() && Grows(old(outcome), outcome) && Moves(old(Now()), t, Now())
      ensures forall x | x in answers && x !in old(answers) :: AnsweredAt(old(Now()), t, x)
    {
      if t.DoTake? && stage == Resting && running {
        var _ := TakeFetch();
      } else if t.DoBuild? && stage.Took? {
        BuildRequest();
      } else if t.DoIngest? && stage.Asked? {
        Ingest(t.r);
      } else if t.DoComplete? && stage.Ended? {
        CompleteFetch();
      } else if t.DoAbort? && stage == Resting {
        AbortPending();
      }
    }

    /** Every interleaving: each cached flag has the value that a response gave to a request built
        from exactly the current context, at most one ticket is pending and it names the job of the
        current context, and no outcome ever changes. Each new answer is brought in by a turn that
        finds a request under way, built from the context that is still current. */
    method Run(turns: seq<Turn>) returns (ghost trace: seq<Snap>)
      requires Valid() && forall i | 0 <= i < |turns| :: TurnOk(turns[i])
      modifies this, history
      ensures Valid() && Grows(old(outcome), outcome)
      ensures Path(trace, turns) && trace[0] == old(Now()) && trace[|turns|] == Now()
      ensures forall i | 0 <= i < |cache| :: (ctx, Bare(cache[i])) in answers
      ensures forall x | x in answers && x !in old(answers) ::
                exists k | 0 <= k < |turns| :: AnsweredAt(trace[k], turns[k], x)
      ensures forall i, j | 0 <= i < j < HISTORY_CAP :: !(history[i].status == Pending && history[j].status == Pending)
      ensures forall i | 0 <= i < HISTORY_CAP && history[i].status == Pending ::
                history[i].gen == gen && Serves(Scheduling(), history[i].id)
    {
      trace := [Now()];
      var i := 0;
      while i < |turns|
        invariant 0 <= i <= |turns| && |trace| == i + 1 && trace[0] == old(Now()) && trace[i] == Now()
        invariant Valid() && Grows(old(outcome), outcome)
        invariant forall j | 0 <= j < i :: Moves(trace[j], turns[j], trace[j + 1])
        invariant forall x | x in answers && x !in old(answers) ::
                    exists k | 0 <= k < i :: AnsweredAt(trace[k], turns[k], x)
      {
        ghost var before := trace;
        Step(turns[i]);
        trace := trace + [Now()];
        assert forall j | 0 <= j <= i :: trace[j] == before[j];
        i := i + 1;
      }
    }
  }
}
