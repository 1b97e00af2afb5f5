/**
 Event records as they lie in the ring: how capture builds one, and how the
 sender's privacy scrub rewrites it.
 */
module Events {
  import opened Bytes
  import opened Props
  import JsonReader

  const DATA_CAP: nat := 4096
  const NAME_MAX: nat := 127
  const DID_MAX: nat := 127

  /** A raw fragment is printed at most five levels deep, inside "$set". */
  const RAW_DEPTH: nat := 5

  datatype Kind = Capture | Identify | Alias | Group | Exception

  /** iso and uuid stand for the timestamp and identifier text rendered from the record. */
  datatype Event = Event(
    kind: Kind, noProfile: bool, hasDid: bool, scrubbed: bool, crashReplay: bool,
    name: bytes, did: bytes, blob: bytes, iso: bytes, uuid: bytes)

  ghost predicate EntryOk(e: Entry) {
    && NulFree(e.key)
    && (e.tag == T_STR || e.tag == PK_GROUP ==> NulFree(e.val))
    && (e.tag == PK_RAWJSON ==> JsonReader.WellFormedRaw(e.val, RAW_DEPTH))
  }

  ghost predicate EntriesOk(es: seq<Entry>) {
    forall i | 0 <= i < |es| :: EntryOk(es[i])
  }

  /** What capture guarantees of a record and the scrub keeps. */
  ghost predicate EventOk(e: Event) {
    && NulFree(e.name) && NulFree(e.did) && NulFree(e.iso) && NulFree(e.uuid)
    && |e.name| + |e.did| + |e.blob| <= DATA_CAP
    && EntriesOk(Entries(e.blob))
  }

  ghost predicate EventsOk(evs: seq<Event>) {
    forall i | 0 <= i < |evs| :: EventOk(evs[i])
  }

  /** A scalar entry as the packer writes it. */
  predicate Canonical(e: Entry) {
    e.Scalar() ==> PropOf(e).Ok() && EntryOf(PropOf(e)) == e
  }

  /** A record whose blob came whole from the packer. */
  ghost predicate Enqueued(e: Event) {
    && EventOk(e)
    && e.blob == PackedAll(Entries(e.blob))
    && |Scalars(Entries(e.blob))| <= MAX_PROPS
    && forall i | 0 <= i < |Entries(e.blob)| :: Canonical(Entries(e.blob)[i])
  }

  // ------------------------------------------------------------------ scrub

  datatype Verdict = Veto | Keep(props: seq<Prop>)

  /** The callback has a state of its own, so its verdict may also depend on when it is asked: its
      first argument numbers the scrubs. */
  datatype BeforeSend = NoHook | Hook(f: (nat, bytes, seq<Prop>) -> Verdict)

  /** The callback can only leave what the fixed property arrays can hold. */
  ghost predicate HookOk(h: BeforeSend) {
    h.Hook? ==> forall k, name, ps | PropsOk(ps) && h.f(k, name, ps).Keep? :: PropsOk(h.f(k, name, ps).props)
  }

  function Cut(b: bytes, n: nat): bytes {
    if |b| <= n then b else b[..n]
  }

  /** Repacked scalars, then the non-scalar entries verbatim when both fit the buffer. */
  function Reassembled(scalars: seq<Entry>, others: seq<Entry>): bytes
  {
    var nb := PackedAll(Greedy(scalars, DATA_CAP));
    var keep := PackedAll(Greedy(others, DATA_CAP));
    if |nb| + |keep| <= DATA_CAP then nb + keep else nb
  }

  function Rebuilt(e: Event, ps: seq<Prop>): Event
    requires |e.name| + |e.did| <= DATA_CAP
  {
    e.(blob := Cut(Reassembled(EntriesOf(ps), Others(Entries(e.blob))), DATA_CAP - |e.name| - |e.did|))
  }

  function ScrubProps(e: Event, denylist: seq<bytes>): seq<Prop> {
    Allowed(Take(Scalars(Entries(e.blob)), MAX_PROPS), denylist)
  }

  /** The preserve buffer after reading the rest of a blob. */
  function KeepFrom(b: bytes, kept: bytes): bytes
    decreases |b|
  {
    var s := BlobNext(b);
    if s.End? then kept
    else if s.entry.Scalar() || |kept| + s.width > DATA_CAP then KeepFrom(b[s.width..], kept)
    else KeepFrom(b[s.width..], kept + b[..s.width])
  }

  lemma GrowKept(seen: seq<Entry>, e: Entry, kept: bytes)
    requires e.Fits() && kept == PackedAll(Greedy(seen, DATA_CAP))
    ensures PackedAll(Greedy(seen + [e], DATA_CAP))
         == if |kept| + e.Size() <= DATA_CAP then kept + Packed(e) else kept
  {
    GreedySnoc(seen, e, DATA_CAP);
    PackedSize(Greedy(seen, DATA_CAP));
    PackedSnoc(Greedy(seen, DATA_CAP), e);
    assert Greedy(seen, DATA_CAP) + [] == Greedy(seen, DATA_CAP);
  }

  lemma {:induction false} KeepFromIsGreedy(b: bytes, seen: seq<Entry>, kept: bytes)
    requires kept == PackedAll(Greedy(seen, DATA_CAP))
    ensures KeepFrom(b, kept) == PackedAll(Greedy(seen + Others(Entries(b)), DATA_CAP))
    decreases |b|
  {
    var s := BlobNext(b);
    if s.End? {
      assert seen + Others(Entries(b)) == seen;
    } else {
      var es := Entries(b);
      assert es[1..] == Entries(b[s.width..]);
      if s.entry.Scalar() {
        KeepFromIsGreedy(b[s.width..], seen, kept);
      } else {
        SnocAssoc(seen, s.entry, Others(es[1..]));
        GrowKept(seen, s.entry, kept);
        PackedIsSlice(b);
        KeepFromIsGreedy(b[s.width..], seen + [s.entry], PackedAll(Greedy(seen + [s.entry], DATA_CAP)));
      }
    }
  }

  /** Copy the non-scalar entries, byte for byte, into a buffer of DATA_CAP bytes. */
  method Preserve(blob: bytes) returns (kept: bytes)
    ensures kept == PackedAll(Greedy(Others(Entries(blob)), DATA_CAP))
  {
    kept := [];
    var rest := blob;
    while true
      invariant KeepFrom(blob, []) == KeepFrom(rest, kept)
      decreases |rest|
    {
      var s := BlobNext(rest);
      if s.End? {
        break;
      }
      if !s.entry.Scalar() && |kept| + s.width <= DATA_CAP {
        kept := kept + rest[..s.width];
      }
      rest := rest[s.width..];
    }
    assert Greedy([], DATA_CAP) == [];
    KeepFromIsGreedy(blob, [], []);
    assert [] + Others(Entries(blob)) == Others(Entries(blob));
  }

  lemma PackedSnoc(es: seq<Entry>, e: Entry)
    requires AllFit(es) && e.Fits()
    ensures AllFit(es + [e])
    ensures PackedAll(es + [e]) == PackedAll(es) + Packed(e)
  {
    PackedAppend(es, [e]);
    assert PackedAll([e]) == Packed(e) + PackedAll([e][1..]) == Packed(e);
  }

  lemma PackedIsSlice(b: bytes)
    requires BlobNext(b).Next?
    ensures Packed(BlobNext(b).entry) == b[..BlobNext(b).width]
  {
    assert U16(b[2], b[3]) % 256 == b[2] && U16(b[2], b[3]) / 256 == b[3];
  }

  method Repack(e: Event, ps: seq<Prop>, others: bytes) returns (r: Event)
    requires |e.name| + |e.did| <= DATA_CAP
    requires others == PackedAll(Greedy(Others(Entries(e.blob)), DATA_CAP))
    ensures r == Rebuilt(e, ps)
  {
    var tmp := new byte[DATA_CAP];
    var nb := PackProps(ps, tmp, DATA_CAP);
    var blob: bytes := tmp[..nb];
    if nb + |others| <= DATA_CAP {
      blob := blob + others;
    }
    assert blob == Reassembled(EntriesOf(ps), Others(Entries(e.blob)));
    var avail := DATA_CAP - |e.name| - |e.did|;
    if |blob| > avail {
      blob := blob[..avail];
    }
    r := e.(blob := blob);
  }

  /** Scrub one record: strip the denylist, ask the callback if told to, repack. */
  method ScrubOne(e: Event, denylist: seq<bytes>, hook: BeforeSend, k: nat, runHook: bool)
    returns (keep: bool, r: Event)
    requires EventOk(e) && HookOk(hook)
    ensures EventOk(r)
    ensures !(runHook && hook.Hook?) ==> keep && r == Rebuilt(e, ScrubProps(e, denylist))
    ensures runHook && hook.Hook? ==>
              match hook.f(k, e.name, ScrubProps(e, denylist))
              case Veto => !keep
              case Keep(ps) => keep && r == Rebuilt(e, ps)
    ensures r.crashReplay == e.crashReplay
  {
    keep, r := true, e;
    var ps := UnpackProps(e.blob);
    var others := Preserve(e.blob);
    UnpackedOk(e);
    ps := ApplyDenylist(ps, denylist);
    AllowedOk(Take(Scalars(Entries(e.blob)), MAX_PROPS), denylist);
    if runHook && hook.Hook? {
      var v := hook.f(k, e.name, ps);
      if v.Veto? {
        return false, e;
      }
      ps := v.props;
    }
    r := Repack(e, ps, others);
    RebuiltOk(e, ps);
  }

  // ----------------------------------------------- what the scrub preserves

  lemma {:induction false} AllowedOk(ps: seq<Prop>, keys: seq<bytes>)
    requires PropsOk(ps)
    ensures PropsOk(Allowed(ps, keys))
    ensures |Allowed(ps, keys)| <= |ps|
    decreases |ps|
  {
    if ps != [] {
      AllowedOk(ps[1..], keys);
    }
  }

  lemma {:induction false} ScalarsOk(es: seq<Entry>)
    requires EntriesOk(es)
    ensures forall i | 0 <= i < |Scalars(es)| :: Scalars(es)[i].Ok()
    decreases |es|
  {
    if es != [] {
      ScalarsOk(es[1..]);
    }
  }

  lemma UnpackedOk(e: Event)
    requires EventOk(e)
    ensures PropsOk(Take(Scalars(Entries(e.blob)), MAX_PROPS))
  {
    ScalarsOk(Entries(e.blob));
  }

  lemma {:induction false} GreedyOk(es: seq<Entry>, cap: nat)
    requires EntriesOk(es)
    ensures EntriesOk(Greedy(es, cap))
    decreases |es|
  {
    if es != [] {
      GreedyOk(es[1..], if es[0].Fits() && es[0].Size() <= cap then cap - es[0].Size() else cap);
    }
  }

  lemma ReassembledEntries(scalars: seq<Entry>, others: seq<Entry>)
    ensures var r := Entries(Reassembled(scalars, others));
            r == Greedy(scalars, DATA_CAP) + Greedy(others, DATA_CAP) || r == Greedy(scalars, DATA_CAP)
  {
    var a, b := Greedy(scalars, DATA_CAP), Greedy(others, DATA_CAP);
    EntriesOfPacked(a, PackedAll(b));
    EntriesExactly(a);
    EntriesExactly(b);
  }

  lemma ReassembledOk(scalars: seq<Entry>, others: seq<Entry>)
    requires EntriesOk(scalars) && EntriesOk(others)
    ensures EntriesOk(Entries(Reassembled(scalars, others)))
  {
    GreedyOk(scalars, DATA_CAP);
    GreedyOk(others, DATA_CAP);
    ReassembledEntries(scalars, others);
  }

  lemma CutOk(whole: bytes, n: nat)
    requires EntriesOk(Entries(whole))
    ensures EntriesOk(Entries(Cut(whole, n)))
  {
    if |whole| > n {
      EntriesOfPrefix(whole, n);
    }
  }

  lemma PropEntriesOk(ps: seq<Prop>)
    requires PropsOk(ps)
    ensures EntriesOk(EntriesOf(ps))
  {
  }

  /** The scrub keeps every record fit for serializing. */
  lemma RebuiltOk(e: Event, ps: seq<Prop>)
    requires EventOk(e) && PropsOk(ps)
    ensures EventOk(Rebuilt(e, ps))
  {
    RepackedOk(ps, Entries(e.blob), DATA_CAP - |e.name| - |e.did|);
  }

  lemma RepackedOk(ps: seq<Prop>, es: seq<Entry>, n: nat)
    requires PropsOk(ps) && EntriesOk(es)
    ensures var blob := Cut(Reassembled(EntriesOf(ps), Others(es)), n);
            EntriesOk(Entries(blob)) && |blob| <= n
  {
    PropEntriesOk(ps);
    OthersOk(es);
    ReassembledOk(EntriesOf(ps), Others(es));
    CutOk(Reassembled(EntriesOf(ps), Others(es)), n);
  }

  lemma OthersOk(es: seq<Entry>)
    requires EntriesOk(es)
    ensures EntriesOk(Others(es))
  {
  }

  /** The scalar entries whose key is not listed. */
  function Kept(es: seq<Entry>, keys: seq<bytes>): seq<Entry> {
    if es == [] then []
    else if es[0].Scalar() && es[0].key !in keys then [es[0]] + Kept(es[1..], keys)
    else Kept(es[1..], keys)
  }

  lemma {:induction false} KeptIsAllowed(es: seq<Entry>, keys: seq<bytes>)
    requires forall i | 0 <= i < |es| :: Canonical(es[i])
    ensures EntriesOf(Allowed(Scalars(es), keys)) == Kept(es, keys)
    decreases |es|
  {
    if es != [] {
      KeptIsAllowed(es[1..], keys);
      if es[0].Scalar() {
        var p, rest := PropOf(es[0]), Scalars(es[1..]);
        AllowedCons(p, rest, keys);
        EntriesOfCons(p, Allowed(rest, keys));
      }
    }
  }

  lemma AllowedCons(p: Prop, rest: seq<Prop>, keys: seq<bytes>)
    ensures Allowed([p] + rest, keys) == (if p.key in keys then [] else [p]) + Allowed(rest, keys)
  {
    assert ([p] + rest)[1..] == rest;
  }

  lemma EntriesOfCons(p: Prop, rest: seq<Prop>)
    ensures EntriesOf([p] + rest) == [EntryOf(p)] + EntriesOf(rest)
  {
  }

  lemma {:induction false} PartsFit(es: seq<Entry>, keys: seq<bytes>)
    requires AllFit(es)
    ensures AllFit(Kept(es, keys)) && AllFit(Others(es))
    ensures TotalSize(Kept(es, keys)) + TotalSize(Others(es)) <= TotalSize(es)
    decreases |es|
  {
    if es != [] {
      PartsFit(es[1..], keys);
    }
  }

  /** A denylist-only scrub of an enqueued record keeps every other scalar, in order,
      and every group and raw entry, byte for byte; nothing else remains. */
  lemma DenylistScrubKeepsTheRest(e: Event, denylist: seq<bytes>)
    requires Enqueued(e)
    ensures var es := Entries(e.blob);
            && AllFit(Kept(es, denylist) + Others(es))
            && Rebuilt(e, ScrubProps(e, denylist)).blob == PackedAll(Kept(es, denylist) + Others(es))
            && Entries(Rebuilt(e, ScrubProps(e, denylist)).blob) == Kept(es, denylist) + Others(es)
  {
    var es := Entries(e.blob);
    var kept, others := Kept(es, denylist), Others(es);
    KeptIsAllowed(es, denylist);
    PartsFit(es, denylist);
    PackedSize(es);
    GreedyKeepsAll(kept, DATA_CAP);
    GreedyKeepsAll(others, DATA_CAP);
    PackedSize(kept);
    PackedSize(others);
    PackedAppend(kept, others);
    EntriesExactly(kept + others);
  }

  // ------------------------------------------------ the entries left alone

  lemma {:induction false} EntriesWithin(b: bytes)
    ensures TotalSize(Entries(b)) <= |b|
    decreases |b|
  {
    var s := BlobNext(b);
    if s.Next? {
      EntriesWithin(b[s.width..]);
    }
  }

  lemma {:induction false} OthersSize(es: seq<Entry>)
    ensures TotalSize(Others(es)) <= TotalSize(es)
  {
    if es != [] {
      OthersSize(es[1..]);
    }
  }

  /** Behind scalars, the other entries are all there is. */
  lemma {:induction false} OthersBehind(scalars: seq<Entry>, others: seq<Entry>)
    requires forall i | 0 <= i < |scalars| :: scalars[i].Scalar()
    requires forall i | 0 <= i < |others| :: !others[i].Scalar()
    ensures Others(scalars + others) == others
    decreases |scalars| + |others|
  {
    var es := scalars + others;
    if scalars != [] {
      assert es[1..] == scalars[1..] + others;
      OthersBehind(scalars[1..], others);
    } else if others != [] {
      assert es == others && es[1..] == scalars + others[1..];
      OthersBehind(scalars, others[1..]);
    }
  }

  lemma {:induction false} GreedyScalars(es: seq<Entry>, cap: nat)
    requires forall i | 0 <= i < |es| :: es[i].Scalar()
    ensures forall i | 0 <= i < |Greedy(es, cap)| :: Greedy(es, cap)[i].Scalar()
    decreases |es|
  {
    if es != [] {
      GreedyScalars(es[1..], if es[0].Fits() && es[0].Size() <= cap then cap - es[0].Size() else cap);
    }
  }

  lemma ShorterPrefix(part: seq<Entry>, es: seq<Entry>)
    requires part <= es && TotalSize(part) < TotalSize(es)
    ensures |part| < |es| && part == es[..|part|]
  {
    assert |part| == |es| ==> part == es;
  }

  /** A blob cut short has lost its last entry, if not more. */
  lemma CutLosesTheEnd(es: seq<Entry>, n: nat) returns (k: nat)
    requires AllFit(es) && n < TotalSize(es)
    ensures k < |es| && Entries(Cut(PackedAll(es), n)) == es[..k]
  {
    var whole := PackedAll(es);
    PackedSize(es);
    EntriesExactly(es);
    EntriesOfPrefix(whole, n);
    EntriesWithin(whole[..n]);
    ShorterPrefix(Entries(whole[..n]), es);
    k := |Entries(whole[..n])|;
  }

  /** Scalars first, then entries of the other kinds. */
  predicate Sorted(scalars: seq<Entry>, others: seq<Entry>) {
    && (forall i | 0 <= i < |scalars| :: scalars[i].Scalar())
    && (forall i | 0 <= i < |others| :: !others[i].Scalar())
  }

  lemma OthersOfPart(scalars: seq<Entry>, others: seq<Entry>, k: nat)
    requires Sorted(scalars, others) && k < |scalars| + |others|
    ensures Others((scalars + others)[..k]) <= others
    ensures Others((scalars + others)[..k]) == others <==> others == []
  {
    var a := if k <= |scalars| then k else |scalars|;
    assert (scalars + others)[..k] == scalars[..a] + others[..k - a];
    OthersBehind(scalars[..a], others[..k - a]);
  }

  /** What is left of the others, of size bytes with the scalars, in a slot of n bytes. */
  predicate Survive(left: seq<Entry>, others: seq<Entry>, size: nat, n: nat) {
    && left <= others && (left == others <==> others == [] || size <= n)
    && (size > DATA_CAP ==> left == [])
  }

  /** What a cut leaves of the others behind the scalars. */
  lemma OthersAfterCut(scalars: seq<Entry>, others: seq<Entry>, n: nat)
    requires AllFit(scalars) && AllFit(others) && AllFit(scalars + others) && Sorted(scalars, others)
    requires TotalSize(scalars) + TotalSize(others) <= DATA_CAP
    ensures Survive(Others(Entries(Cut(PackedAll(scalars + others), n))), others,
                    TotalSize(scalars) + TotalSize(others), n)
  {
    var es := scalars + others;
    TotalSizeAppend(scalars, others);
    PackedSize(es);
    if TotalSize(es) <= n {
      EntriesExactly(es);
      OthersBehind(scalars, others);
    } else {
      var k := CutLosesTheEnd(es, n);
      OthersOfPart(scalars, others, k);
    }
  }

  /** Of scalars alone no cut leaves anything else. */
  lemma NoOthersAfterCut(scalars: seq<Entry>, n: nat)
    requires AllFit(scalars) && Sorted(scalars, [])
    ensures Others(Entries(Cut(PackedAll(scalars), n))) == []
  {
    EntriesExactly(scalars);
    PackedSize(scalars);
    var k := |scalars|;
    if n < TotalSize(scalars) {
      k := CutLosesTheEnd(scalars, n);
    }
    assert scalars[..k] + [] == scalars[..k] && (k == |scalars| ==> scalars[..k] == scalars);
    OthersBehind(scalars[..k], []);
  }

  /** The same of repacked scalars with others behind them. */
  lemma ReassembledOthers(scalars: seq<Entry>, others: seq<Entry>, n: nat)
    requires AllFit(others) && TotalSize(others) <= DATA_CAP && n <= DATA_CAP && Sorted(scalars, others)
    ensures Survive(Others(Entries(Cut(Reassembled(scalars, others), n))), others,
                    TotalSize(Greedy(scalars, DATA_CAP)) + TotalSize(others), n)
  {
    var packed := Greedy(scalars, DATA_CAP);
    GreedyScalars(scalars, DATA_CAP);
    GreedyKeepsAll(others, DATA_CAP);
    PackedSize(packed);
    PackedSize(others);
    if TotalSize(packed) + TotalSize(others) <= DATA_CAP {
      PackedAppend(packed, others);
      OthersAfterCut(packed, others, n);
    } else {
      NoOthersAfterCut(packed, n);
    }
  }

  /** When a scrub leaves the non-scalar entries alone: exactly if there are none, or if they and the
      repacked properties fit the slot together. Otherwise the last of them are lost, and all of them
      if the two do not even fit the buffer. */
  lemma OthersSurviveIff(e: Event, ps: seq<Prop>)
    requires |e.name| + |e.did| + |e.blob| <= DATA_CAP
    ensures Survive(Others(Entries(Rebuilt(e, ps).blob)), Others(Entries(e.blob)),
                    TotalSize(Greedy(EntriesOf(ps), DATA_CAP)) + TotalSize(Others(Entries(e.blob))),
                    DATA_CAP - |e.name| - |e.did|)
  {
    var n := DATA_CAP - |e.name| - |e.did|;
    OthersWithin(e.blob);
    assert Rebuilt(e, ps).blob == Cut(Reassembled(EntriesOf(ps), Others(Entries(e.blob))), n);
    RepackedOthers(ps, Others(Entries(e.blob)), n);
  }

  lemma OthersWithin(b: bytes)
    ensures Sorted([], Others(Entries(b))) && TotalSize(Others(Entries(b))) <= |b|
  {
    EntriesWithin(b);
    OthersSize(Entries(b));
  }

  lemma RepackedOthers(ps: seq<Prop>, others: seq<Entry>, n: nat)
    requires AllFit(others) && TotalSize(others) <= DATA_CAP && n <= DATA_CAP && Sorted([], others)
    ensures Survive(Others(Entries(Cut(Reassembled(EntriesOf(ps), others), n))), others,
                    TotalSize(Greedy(EntriesOf(ps), DATA_CAP)) + TotalSize(others), n)
  {
    PropsFirst(ps, others);
    ReassembledOthers(EntriesOf(ps), others, n);
  }

  lemma PropsFirst(ps: seq<Prop>, others: seq<Entry>)
    requires Sorted([], others)
    ensures Sorted(EntriesOf(ps), others)
  {
  }

  lemma {:induction false} CopiesSize(p: Prop, n: nat)
    ensures TotalSize(EntriesOf(seq(n, _ => p))) == n * EntryOf(p).Size()
  {
    if n > 0 {
      var es := EntriesOf(seq(n, _ => p));
      assert es[1..] == EntriesOf(seq(n - 1, _ => p));
      CopiesSize(p, n - 1);
    }
  }

  /** A record with one group, to which the callback leaves so many properties that the group is lost. */
  lemma LargeUpdateLosesAGroup() returns (e: Event, ps: seq<Prop>)
    ensures Enqueued(e) && PropsOk(ps) && |Others(Entries(e.blob))| == 1 && Others(Entries(Rebuilt(e, ps).blob)) == []
  {
    e := OneGroup();
    ps := FillingProps();
    OthersSurviveIff(e, ps);
  }

  lemma FillingProps() returns (ps: seq<Prop>)
    ensures PropsOk(ps) && TotalSize(Greedy(EntriesOf(ps), DATA_CAP)) == DATA_CAP - 1
  {
    var p := Prop([107], PStr(seq(190, _ => 118)));
    ps := seq(21, _ => p);
    CopiesSize(p, 21);
    assert EntryOf(p).Size() == 195;
    GreedyKeepsAll(EntriesOf(ps), DATA_CAP);
  }

  lemma OneGroup() returns (e: Event)
    ensures Enqueued(e) && |e.name| == |e.did| == 1
    ensures |Others(Entries(e.blob))| == 1 && TotalSize(Others(Entries(e.blob))) == 6
  {
    var group := Entry(PK_GROUP, [103], [49]);
    e := Event(Capture, false, true, false, false, [110], [100], PackedAll([group]), [], []);
    EntriesExactly([group]);
    PackedSize([group]);
    assert [group][1..] == [];
  }

  // ---------------------------------------------------------------- capture

  function NonEmptyKeys(ps: seq<Prop>): (r: seq<Prop>)
    ensures forall i | 0 <= i < |r| :: r[i] in ps && r[i].key != []
  {
    if ps == [] then []
    else if ps[0].key == [] then NonEmptyKeys(ps[1..])
    else [ps[0]] + NonEmptyKeys(ps[1..])
  }

  function Keys(ps: seq<Prop>): seq<bytes> {
    seq(|ps|, i requires 0 <= i < |ps| => ps[i].key)
  }

  /** Explicit properties first; a super property of the same key gives way. */
  function Merge(explicit: seq<Prop>, super: seq<Prop>): seq<Prop> {
    var mine := Take(explicit, MAX_PROPS);
    Take(NonEmptyKeys(mine) + NonEmptyKeys(Allowed(Take(super, MAX_PROPS), Keys(mine))), MAX_PROPS)
  }

  lemma {:induction false} AllowedMembers(ps: seq<Prop>, keys: seq<bytes>)
    ensures forall i | 0 <= i < |Allowed(ps, keys)| ::
              Allowed(ps, keys)[i] in ps && Allowed(ps, keys)[i].key !in keys
    ensures forall p | p in ps && p.key !in keys && p.key != [] :: p in NonEmptyKeys(Allowed(ps, keys))
    decreases |ps|
  {
    if ps != [] {
      AllowedMembers(ps[1..], keys);
    }
  }

  lemma {:induction false} NonEmptyKeysShort(ps: seq<Prop>)
    ensures |NonEmptyKeys(ps)| <= |ps|
  {
    if ps != [] {
      NonEmptyKeysShort(ps[1..]);
    }
  }

  /** The merge begins with the explicit properties, all of them. Behind them come only super
      properties that no explicit one shadows, and none is missing unless the set is full. */
  lemma MergePrefersExplicit(explicit: seq<Prop>, super: seq<Prop>)
    requires PropsOk(explicit) && PropsOk(super)
    ensures PropsOk(Merge(explicit, super)) && NonEmptyKeys(explicit) <= Merge(explicit, super)
    ensures forall i | |NonEmptyKeys(explicit)| <= i < |Merge(explicit, super)| ::
              var p := Merge(explicit, super)[i];
              p in super && p.key !in Keys(explicit)
    ensures forall p | p in super && p.key !in Keys(explicit) && p.key != [] ::
              p in Merge(explicit, super) || |Merge(explicit, super)| == MAX_PROPS
  {
    var a, b := NonEmptyKeys(explicit), NonEmptyKeys(Allowed(super, Keys(explicit)));
    AllowedMembers(super, Keys(explicit));
    NonEmptyKeysShort(explicit);
    var m := Merge(explicit, super);
    assert m == Take(a + b, MAX_PROPS);
    forall i | 0 <= i < |m|
      ensures m[i].Ok() && (i < |a| || (m[i] in super && m[i].key !in Keys(explicit)))
    {
      assert m[i] == if i < |a| then a[i] else b[i - |a|];
    }
  }

  /** One setter call: an empty key and a full set are refused. */
  function Added(out: seq<Prop>, p: Prop, keys: seq<bytes>): seq<Prop> {
    if p.key in keys || p.key == [] || |out| >= MAX_PROPS then out else out + [p]
  }

  function Fill(out: seq<Prop>, ps: seq<Prop>, keys: seq<bytes>): seq<Prop>
    decreases |ps|
  {
    if ps == [] then out else Fill(Added(out, ps[0], keys), ps[1..], keys)
  }

  lemma {:induction false} FillIsTake(out: seq<Prop>, ps: seq<Prop>, keys: seq<bytes>)
    requires |out| <= MAX_PROPS
    ensures Fill(out, ps, keys) == Take(out + NonEmptyKeys(Allowed(ps, keys)), MAX_PROPS)
    decreases |ps|
  {
    if ps == [] {
      assert out + [] == out;
    } else {
      var more := NonEmptyKeys(Allowed(ps[1..], keys));
      FillIsTake(Added(out, ps[0], keys), ps[1..], keys);
      if ps[0].key !in keys {
        assert Allowed(ps, keys)[1..] == Allowed(ps[1..], keys);
        if ps[0].key != [] {
          ConcatAssoc(out, [ps[0]], more);
          TakeFull(out, [ps[0]] + more, more);
        }
      }
    }
  }

  /** What follows a full set is not taken. */
  lemma TakeFull(out: seq<Prop>, a: seq<Prop>, b: seq<Prop>)
    requires |out| <= MAX_PROPS
    ensures |out| == MAX_PROPS ==> Take(out + a, MAX_PROPS) == out == Take(out + b, MAX_PROPS)
  {
  }

  /** The two copying loops, of which the second stops at a full set. */
  method MergeProps(explicit: seq<Prop>, super: seq<Prop>) returns (out: seq<Prop>)
    ensures out == Merge(explicit, super)
  {
    var mine, theirs := Take(explicit, MAX_PROPS), Take(super, MAX_PROPS);
    out := CopyProps([], mine, []);
    AllowedNothing(mine);
    NonEmptyKeysShort(mine);
    assert [] + NonEmptyKeys(mine) == NonEmptyKeys(mine);
    out := CopyProps(out, theirs, Keys(mine));
  }

  method CopyProps(start: seq<Prop>, ps: seq<Prop>, keys: seq<bytes>) returns (out: seq<Prop>)
    requires |start| <= MAX_PROPS
    ensures out == Take(start + NonEmptyKeys(Allowed(ps, keys)), MAX_PROPS)
  {
    FillIsTake(start, ps, keys);
    ghost var want := Fill(start, ps, keys);
    out := start;
    var i := 0;
    assert ps[0..] == ps;
    while i < |ps| && |out| < MAX_PROPS
      invariant 0 <= i <= |ps| && |out| <= MAX_PROPS
      invariant want == Fill(out, ps[i..], keys)
    {
      assert ps[i..][1..] == ps[i + 1..];
      if ps[i].key !in keys && ps[i].key != [] {
        out := out + [ps[i]];
      }
      i := i + 1;
    }
    FillIsTake(out, ps[i..], keys);
    TakeFull(out, NonEmptyKeys(Allowed(ps[i..], keys)), []);
  }

  function GroupEntries(groups: seq<(bytes, bytes)>): (es: seq<Entry>)
    ensures |es| == |groups|
    ensures forall i | 0 <= i < |groups| :: es[i] == Entry(PK_GROUP, groups[i].0, groups[i].1)
  {
    seq(|groups|, i requires 0 <= i < |groups| => Entry(PK_GROUP, groups[i].0, groups[i].1))
  }

  function RawPart(raw: seq<Entry>, cap: nat): (r: seq<Entry>)
    ensures TotalSize(r) <= cap && (AllFit(raw) ==> AllFit(r))
  {
    if TotalSize(raw) <= cap then raw else []
  }

  /** The entries capture packs: the raw payload if it fits, then the properties, then the groups. */
  function CaptureEntries(raw: seq<Entry>, ps: seq<Prop>, groups: seq<(bytes, bytes)>, cap: nat): (es: seq<Entry>)
    ensures AllFit(raw) ==> AllFit(es)
  {
    var r := RawPart(raw, cap);
    r + PropPart(ps, cap - TotalSize(r)) + GroupPart(ps, groups, cap - TotalSize(r))
  }

  /** The properties that fit. */
  function PropPart(ps: seq<Prop>, room: nat): (p: seq<Entry>)
    ensures AllFit(p) && TotalSize(p) <= room
  {
    Greedy(EntriesOf(ps), room)
  }

  /** The groups that fit behind them. */
  function GroupPart(ps: seq<Prop>, groups: seq<(bytes, bytes)>, room: nat): (g: seq<Entry>)
    ensures AllFit(g) && TotalSize(PropPart(ps, room)) + TotalSize(g) <= room
  {
    Greedy(GroupEntries(groups), room - TotalSize(PropPart(ps, room)))
  }

  lemma CaptureFits(raw: seq<Entry>, ps: seq<Prop>, groups: seq<(bytes, bytes)>, cap: nat)
    ensures TotalSize(CaptureEntries(raw, ps, groups, cap)) <= cap
  {
    var r := RawPart(raw, cap);
    var room := cap - TotalSize(r);
    ThreeSizes(r, PropPart(ps, room), GroupPart(ps, groups, room));
  }

  lemma ThreeSizes(r: seq<Entry>, p: seq<Entry>, g: seq<Entry>)
    ensures TotalSize(r + p + g) == TotalSize(r) + TotalSize(p) + TotalSize(g)
  {
    TotalSizeAppend(r, p);
    TotalSizeAppend(r + p, g);
  }

  lemma {:induction false} GreedyInside(es: seq<Entry>, cap: nat)
    ensures forall i | 0 <= i < |Greedy(es, cap)| :: Greedy(es, cap)[i] in es
    ensures |Greedy(es, cap)| <= |es|
    decreases |es|
  {
    if es != [] {
      GreedyInside(es[1..], if es[0].Fits() && es[0].Size() <= cap then cap - es[0].Size() else cap);
    }
  }

  lemma {:induction false} ScalarsAppend(a: seq<Entry>, b: seq<Entry>)
    ensures Scalars(a + b) == Scalars(a) + Scalars(b)
    decreases |a|
  {
    if a == [] {
      assert a + b == b;
    } else {
      assert (a + b)[1..] == a[1..] + b;
      ScalarsAppend(a[1..], b);
    }
  }

  lemma {:induction false} NoScalars(es: seq<Entry>)
    requires forall i | 0 <= i < |es| :: !es[i].Scalar()
    ensures Scalars(es) == []
    decreases |es|
  {
    if es != [] {
      NoScalars(es[1..]);
    }
  }

  lemma PackedPropsCanonical(ps: seq<Prop>, cap: nat)
    requires PropsOk(ps)
    ensures GoodEntries(Greedy(EntriesOf(ps), cap))
    ensures |Scalars(Greedy(EntriesOf(ps), cap))| <= MAX_PROPS
  {
    var es, p := EntriesOf(ps), Greedy(EntriesOf(ps), cap);
    GreedyInside(es, cap);
    GreedyOk(es, cap);
    ScalarsShort(p);
    forall i | 0 <= i < |p| ensures Canonical(p[i]) {
      var j :| 0 <= j < |ps| && p[i] == es[j];
      PropOfEntry(ps[j]);
    }
  }

  lemma PackedGroupsPlain(groups: seq<(bytes, bytes)>, cap: nat)
    requires forall i | 0 <= i < |groups| :: NulFree(groups[i].0) && NulFree(groups[i].1)
    ensures NonScalars(Greedy(GroupEntries(groups), cap))
  {
    GreedyInside(GroupEntries(groups), cap);
    GreedyOk(GroupEntries(groups), cap);
  }

  lemma EnqueuedIf(e: Event, es: seq<Entry>)
    requires NulFree(e.name) && NulFree(e.did) && NulFree(e.iso) && NulFree(e.uuid)
    requires |e.name| + |e.did| + |e.blob| <= DATA_CAP
    requires AllFit(es) && e.blob == PackedAll(es) && GoodEntries(es) && |Scalars(es)| <= MAX_PROPS
    ensures Enqueued(e)
  {
    EntriesExactly(es);
  }

  lemma CaptureEntriesOk(raw: seq<Entry>, ps: seq<Prop>, groups: seq<(bytes, bytes)>, cap: nat)
    returns (es: seq<Entry>)
    requires AllFit(raw) && NonScalars(raw)
    requires PropsOk(ps)
    requires forall i | 0 <= i < |groups| :: NulFree(groups[i].0) && NulFree(groups[i].1)
    ensures es == CaptureEntries(raw, ps, groups, cap)
    ensures GoodEntries(es) && |Scalars(es)| <= MAX_PROPS
  {
    var r := RawPart(raw, cap);
    var p := Greedy(EntriesOf(ps), cap - TotalSize(r));
    var g := Greedy(GroupEntries(groups), cap - TotalSize(r) - TotalSize(p));
    es := r + p + g;
    assert GoodEntries(p) && |Scalars(p)| <= MAX_PROPS by {
      PackedPropsCanonical(ps, cap - TotalSize(r));
    }
    assert NonScalars(g) by {
      PackedGroupsPlain(groups, cap - TotalSize(r) - TotalSize(p));
    }
    RawPlain(raw, cap);
    PartsGood(r, p, g);
  }

  lemma RawPlain(raw: seq<Entry>, cap: nat)
    requires NonScalars(raw)
    ensures NonScalars(RawPart(raw, cap))
  {
  }

  /** Every record capture builds is in the form that the scrub law asks for. */
  lemma CapturedIsEnqueued(e: Event, raw: seq<Entry>, ps: seq<Prop>, groups: seq<(bytes, bytes)>)
    requires NulFree(e.name) && NulFree(e.did) && NulFree(e.iso) && NulFree(e.uuid)
    requires |e.name| <= NAME_MAX && |e.did| <= DID_MAX
    requires AllFit(raw) && NonScalars(raw)
    requires PropsOk(ps)
    requires forall i | 0 <= i < |groups| :: NulFree(groups[i].0) && NulFree(groups[i].1)
    requires e.blob == PackedAll(CaptureEntries(raw, ps, groups, DATA_CAP - |e.name| - |e.did|))
    ensures Enqueued(e)
  {
    var cap := DATA_CAP - |e.name| - |e.did|;
    var es := CaptureEntriesOk(raw, ps, groups, cap);
    CaptureFits(raw, ps, groups, cap);
    PackedSize(es);
    EnqueuedIf(e, es);
  }

  /** Product events carry the super properties; control events only their own. */
  function CaptureProps(explicit: seq<Prop>, super: seq<Prop>, stamp: bool): seq<Prop> {
    if stamp then Merge(explicit, super) else explicit
  }

  function CaptureGroups(groups: seq<(bytes, bytes)>, stamp: bool): seq<(bytes, bytes)> {
    if stamp then groups else []
  }

  method ChooseProps(explicit: seq<Prop>, super: seq<Prop>, stamp: bool) returns (ps: seq<Prop>)
    requires PropsOk(explicit) && PropsOk(super)
    ensures ps == CaptureProps(explicit, super, stamp) && PropsOk(ps)
  {
    ps := explicit;
    if stamp {
      MergePrefersExplicit(explicit, super);
      ps := MergeProps(explicit, super);
    }
  }

  /** The record that capture writes into its slot: name and distinct id, then the raw payload if it
      fits, the properties merged with the super ones, and the groups. */
  method CaptureRecord(head: Event, explicit: seq<Prop>, super: seq<Prop>, groups: seq<(bytes, bytes)>, stamp: bool,
                       extra: bytes, ghost raw: seq<Entry>) returns (e: Event)
    requires NulFree(head.name) && NulFree(head.did) && NulFree(head.iso) && NulFree(head.uuid)
    requires |head.name| <= NAME_MAX && |head.did| <= DID_MAX
    requires PropsOk(explicit) && PropsOk(super) && AllFit(raw) && NonScalars(raw) && extra == PackedAll(raw)
    requires forall i | 0 <= i < |groups| :: NulFree(groups[i].0) && NulFree(groups[i].1)
    ensures Enqueued(e) && e == head.(blob := e.blob)
    ensures e.blob == PackedAll(CaptureEntries(raw, CaptureProps(explicit, super, stamp), CaptureGroups(groups, stamp),
                                               DATA_CAP - |head.name| - |head.did|))
  {
    var ps := ChooseProps(explicit, super, stamp);
    var gs := CaptureGroups(groups, stamp);
    var blob := FillSlot(head.name, head.did, extra, raw, ps, gs);
    e := head.(blob := blob);
    CapturedIsEnqueued(e, raw, ps, gs);
  }

  /** The slot's bytes: name, distinct id, and behind them the packed part, which is returned. */
  method FillSlot(name: bytes, did: bytes, extra: bytes, ghost raw: seq<Entry>, ps: seq<Prop>,
                  groups: seq<(bytes, bytes)>) returns (blob: bytes)
    requires |name| + |did| <= DATA_CAP && AllFit(raw) && extra == PackedAll(raw)
    ensures blob == PackedAll(CaptureEntries(raw, ps, groups, DATA_CAP - |name| - |did|))
  {
    var data := new byte[DATA_CAP];
    var off := PutBytes(data, 0, name);
    off := PutBytes(data, off, did);
    ghost var before := data[..off];
    var end := PackBlob(data, off, extra, raw, ps, groups);
    BehindHead(data[..end], before, PackedAll(CaptureEntries(raw, ps, groups, DATA_CAP - off)), off);
    assert data[off..end] == data[..end][off..];
    blob := data[off..end];
  }

  lemma BehindHead(all: bytes, before: bytes, rest: bytes, off: nat)
    requires all == before + rest && |before| == off
    ensures all[off..] == rest
  {
  }

  method PutBytes(data: array<byte>, at: nat, text: bytes) returns (off: nat)
    requires at + |text| <= data.Length
    modifies data
    ensures off == at + |text| && data[..off] == old(data[..at]) + text && data[off..] == old(data[off..])
  {
    forall i | 0 <= i < |text| {
      data[at + i] := text[i];
    }
    off := at + |text|;
  }

  /** The raw payload, when there is one and it fits. */
  method PackRaw(data: array<byte>, off: nat, extra: bytes, ghost raw: seq<Entry>) returns (end: nat)
    requires off <= data.Length && AllFit(raw) && extra == PackedAll(raw)
    modifies data
    ensures off <= end <= data.Length && end == off + TotalSize(RawPart(raw, data.Length - off))
    ensures data[..end] == old(data[..off]) + PackedAll(RawPart(raw, data.Length - off))
  {
    PackedSize(raw);
    end := off;
    if |extra| > 0 && |extra| <= data.Length - off {
      end := PutBytes(data, off, extra);
    } else {
      assert data[..off] + [] == data[..off];
    }
  }

  /** The properties, then the groups, from an offset on. */
  method PackTail(data: array<byte>, off: nat, ps: seq<Prop>, groups: seq<(bytes, bytes)>) returns (end: nat)
    requires off <= data.Length
    modifies data
    ensures off <= end <= data.Length
    ensures data[..end] == (old(data[..off]) + PackedAll(PropPart(ps, data.Length - off)))
                           + PackedAll(GroupPart(ps, groups, data.Length - off))
  {
    end := PackEntries(EntriesOf(ps), data, off, data.Length);
    end := PackEntries(GroupEntries(groups), data, end, data.Length);
  }

  /** The packed part of a record, from an offset on. */
  method PackBlob(data: array<byte>, off: nat, extra: bytes, ghost raw: seq<Entry>, ps: seq<Prop>,
                  groups: seq<(bytes, bytes)>) returns (end: nat)
    requires off <= data.Length && AllFit(raw) && extra == PackedAll(raw)
    modifies data
    ensures off <= end <= data.Length
    ensures data[..end] == old(data[..off]) + PackedAll(CaptureEntries(raw, ps, groups, data.Length - off))
  {
    ghost var before, cap := data[..off], data.Length - off;
    end := PackRaw(data, off, extra, raw);
    ghost var middle, room := data[..end], data.Length - end;
    assert room == cap - TotalSize(RawPart(raw, cap)) && middle == before + PackedAll(RawPart(raw, cap));
    end := PackTail(data, end, ps, groups);
    ghost var all := data[..end];
    assert all == before + PackedAll(CaptureEntries(raw, ps, groups, cap)) by {
      CaptureThree(before, middle, all, raw, ps, groups, cap, room);
    }
  }

  lemma CaptureThree(before: bytes, middle: bytes, all: bytes, raw: seq<Entry>, ps: seq<Prop>,
                     groups: seq<(bytes, bytes)>, cap: nat, room: nat)
    requires AllFit(raw) && middle == before + PackedAll(RawPart(raw, cap))
    requires room == cap - TotalSize(RawPart(raw, cap))
    requires all == (middle + PackedAll(PropPart(ps, room))) + PackedAll(GroupPart(ps, groups, room))
    ensures all == before + PackedAll(CaptureEntries(raw, ps, groups, cap))
  {
    var r := RawPart(raw, cap);
    var p, g := PropPart(ps, room), GroupPart(ps, groups, room);
    assert CaptureEntries(raw, ps, groups, cap) == r + p + g;
    PackedThree(before, r, p, g);
  }

  lemma PackedThree(before: bytes, r: seq<Entry>, p: seq<Entry>, g: seq<Entry>)
    requires AllFit(r) && AllFit(p) && AllFit(g)
    ensures AllFit(r + p + g)
    ensures ((before + PackedAll(r)) + PackedAll(p)) + PackedAll(g) == before + PackedAll(r + p + g)
  {
    PackedAppend(r, p);
    PackedAppend(r + p, g);
    ConcatAssoc(before, PackedAll(r), PackedAll(p));
    ConcatAssoc(before, PackedAll(r + p), PackedAll(g));
  }

  ghost predicate NonScalars(es: seq<Entry>) {
    EntriesOk(es) && forall i | 0 <= i < |es| :: !es[i].Scalar()
  }

  ghost predicate GoodEntries(es: seq<Entry>) {
    forall i | 0 <= i < |es| :: EntryOk(es[i]) && Canonical(es[i])
  }

  lemma GoodAppend(a: seq<Entry>, b: seq<Entry>)
    requires GoodEntries(a) && GoodEntries(b)
    ensures GoodEntries(a + b)
  {
  }

  lemma PartsGood(r: seq<Entry>, p: seq<Entry>, g: seq<Entry>)
    requires NonScalars(r) && GoodEntries(p) && NonScalars(g)
    ensures GoodEntries(r + p + g) && Scalars(r + p + g) == Scalars(p)
  {
    GoodAppend(r, p);
    GoodAppend(r + p, g);
    NoScalars(r);
    NoScalars(g);
    ScalarsAppend(r, p);
    ScalarsAppend(r + p, g);
  }

  lemma {:induction false} ScalarsShort(es: seq<Entry>)
    ensures |Scalars(es)| <= |es|
    decreases |es|
  {
    if es != [] {
      ScalarsShort(es[1..]);
    }
  }
}
