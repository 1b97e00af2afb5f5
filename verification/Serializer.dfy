/**
 From event records to the /batch/ envelope. The methods append to a buffer as
 the program does; the specification is the document they print.
 */
module Serializer {
  import opened Bytes
  import opened Props
  import opened Events
  import opened JsonText

  type OkNumeral = n: Numeral | n.Ok() witness Numeral(false, [48], [], [], [])

  /** How a double prints: null when it is not finite, otherwise a number. */
  datatype Rendering = NotFinite | Finite(n: OkNumeral)

  datatype Ctx = Ctx(
    apiKey: bytes, distinctId: bytes, release: bytes, version: bytes,
    backend: bytes, os: bytes, arch: bytes,
    denylist: seq<bytes>, disableGeoip: bool, double: bytes -> Rendering)

  predicate CtxOk(c: Ctx) {
    && NulFree(c.apiKey) && NulFree(c.distinctId) && NulFree(c.release) && NulFree(c.version)
    && NulFree(c.backend) && NulFree(c.os) && NulFree(c.arch)
  }

  // -------------------------------------------------------------- literals

  const K_EVENT: bytes := Text("event")
  const K_TIMESTAMP: bytes := Text("timestamp")
  const K_UUID: bytes := Text("uuid")
  const K_PROPERTIES: bytes := Text("properties")
  const K_API_KEY: bytes := Text("api_key")
  const K_MIGRATION: bytes := Text("historical_migration")
  const K_BATCH: bytes := Text("batch")
  const K_DISTINCT_ID: bytes := Text("distinct_id")
  const K_LIB: bytes := Text("$lib")
  const K_LIB_VERSION: bytes := Text("$lib_version")
  const K_LIB_BACKEND: bytes := Text("$lib_backend")
  const K_OS: bytes := Text("$os")
  const K_ARCH: bytes := Text("arch")
  const K_RELEASE: bytes := Text("release")
  const K_PROFILE: bytes := Text("$process_person_profile")
  const K_GROUPS: bytes := Text("$groups")
  const K_GROUP_SET: bytes := Text("$group_set")
  const K_GROUP_TYPE: bytes := Text("$group_type")
  const K_GROUP_KEY: bytes := Text("$group_key")
  const K_SET: bytes := Text("$set")
  const K_GEOIP: bytes := Text("$geoip_disable")
  const V_LIB: bytes := Text("posthog-c")

  /** Wire keys that only the SDK may write at the top level. */
  const OWNED: seq<bytes> := [
    K_DISTINCT_ID, K_LIB, K_LIB_VERSION, K_LIB_BACKEND, K_PROFILE, K_GROUPS,
    K_GROUP_SET, K_GROUP_TYPE, K_GROUP_KEY]

  // --------------------------------------------------------------- integers

  function Decimal(n: nat): (d: bytes)
    ensures Digits(d) && |d| > 0 && (d[0] == 48 ==> n == 0 && |d| == 1)
  {
    if n < 10 then [48 + n] else Decimal(n / 10) + [48 + n % 10]
  }

  function DecimalValue(d: bytes): nat
    requires Digits(d)
  {
    if d == [] then 0 else DecimalValue(d[..|d| - 1]) * 10 + (d[|d| - 1] - 48)
  }

  /** The printed digits denote the number. */
  lemma {:induction false} DecimalDenotes(n: nat)
    ensures DecimalValue(Decimal(n)) == n
  {
    var d := Decimal(n);
    if n < 10 {
      assert d[..0] == [];
    } else {
      DecimalDenotes(n / 10);
      assert d[..|d| - 1] == Decimal(n / 10);
    }
  }

  function LittleEndian(b: bytes): nat {
    if b == [] then 0 else b[0] + Times256(LittleEndian(b[1..]))
  }

  function Times256(n: nat): nat {
    256 * n
  }

  const TWO63: nat := 0x8000_0000_0000_0000
  const TWO64: nat := 0x1_0000_0000_0000_0000

  function Int64(b: bytes): int {
    var u := LittleEndian(b);
    if u < TWO63 then u else u - TWO64
  }

  function IntNumeral(v: int): (n: OkNumeral) {
    Numeral(v < 0, Decimal(if v < 0 then -v else v), [], [], [])
  }

  // --------------------------------------------------- what an entry prints

  function ScalarDoc(c: Ctx, e: Entry): Doc {
    if e.tag == T_STR then Str(e.val)
    else if e.tag == T_DOUBLE then
      match c.double(if |e.val| == 8 then e.val else ZERO8)
      case NotFinite => Null
      case Finite(n) => Num(n)
    else if e.tag == T_INT then Num(IntNumeral(if |e.val| == 8 then Int64(e.val) else 0))
    else if e.tag == T_BOOL then Bool(|e.val| >= 1 && e.val[0] != 0)
    else Null
  }

  /** The four ways the serializer walks a blob. */
  datatype Walk = Top(skipGeo: bool, skipOwned: bool) | GroupScope | GroupIds | GroupSet

  predicate IsGroupId(key: bytes) {
    key == K_GROUP_TYPE || key == K_GROUP_KEY
  }

  predicate Shown(w: Walk, e: Entry) {
    match w
    case Top(skipGeo, skipOwned) =>
      e.tag != PK_GROUP && !(skipGeo && e.key == K_GEOIP) && !(skipOwned && e.key in OWNED)
    case GroupScope => e.tag == PK_GROUP
    case GroupIds => IsGroupId(e.key)
    case GroupSet => !IsGroupId(e.key)
  }

  function EntryDoc(c: Ctx, w: Walk, e: Entry): Doc {
    if w.Top? && e.tag == PK_RAWJSON then Raw(e.val)
    else if w.GroupScope? then Str(e.val)
    else ScalarDoc(c, e)
  }

  function Pick(c: Ctx, w: Walk, e: Entry): seq<Member> {
    if Shown(w, e) then [Member(e.key, EntryDoc(c, w, e))] else []
  }

  function EntryMembers(c: Ctx, w: Walk, es: seq<Entry>): seq<Member> {
    if es == [] then [] else Pick(c, w, es[0]) + EntryMembers(c, w, es[1..])
  }

  predicate HasScalar(es: seq<Entry>, key: bytes) {
    es != [] && ((es[0].Scalar() && es[0].key == key) || HasScalar(es[1..], key))
  }

  // ------------------------------------------------------------ the envelope

  function Wrapped(key: bytes, ms: seq<Member>): seq<Member> {
    if ms == [] then [] else [Member(key, Obj(ms))]
  }

  predicate Stamped(c: Ctx, e: Event, key: bytes) {
    key !in c.denylist && (e.kind.Identify? || e.kind.Group? || !HasScalar(Entries(e.blob), key))
  }

  function AutoMember(c: Ctx, e: Event, key: bytes, val: bytes): seq<Member> {
    if Stamped(c, e, key) then [Member(key, Str(val))] else []
  }

  function DistinctId(c: Ctx, e: Event): bytes {
    if e.hasDid then e.did else c.distinctId
  }

  function FixedMembers(c: Ctx, e: Event): seq<Member> {
    [Member(K_DISTINCT_ID, Str(DistinctId(c, e))), Member(K_LIB, Str(V_LIB)),
     Member(K_LIB_VERSION, Str(c.version)), Member(K_LIB_BACKEND, Str(c.backend))]
  }

  function AutoMembers(c: Ctx, e: Event): seq<Member> {
    AutoMember(c, e, K_OS, c.os) + AutoMember(c, e, K_ARCH, c.arch)
    + (if c.release == [] then [] else AutoMember(c, e, K_RELEASE, c.release))
    + (if e.noProfile then [Member(K_PROFILE, Bool(false))] else [])
  }

  function KindMembers(c: Ctx, e: Event): seq<Member> {
    var es := Entries(e.blob);
    match e.kind
    case Identify => [Member(K_SET, Obj(EntryMembers(c, Top(false, false), es)))]
    case Group => EntryMembers(c, GroupIds, es) + Wrapped(K_GROUP_SET, EntryMembers(c, GroupSet, es))
    case _ => EntryMembers(c, Top(c.disableGeoip, true), es) + Wrapped(K_GROUPS, EntryMembers(c, GroupScope, es))
  }

  function GeoMembers(c: Ctx): seq<Member> {
    if c.disableGeoip then [Member(K_GEOIP, Bool(true))] else []
  }

  function PropMembers(c: Ctx, e: Event): seq<Member> {
    FixedMembers(c, e) + AutoMembers(c, e) + KindMembers(c, e) + GeoMembers(c)
  }

  function EventDoc(c: Ctx, e: Event): Doc {
    Obj([Member(K_EVENT, Str(e.name)), Member(K_TIMESTAMP, Str(e.iso)), Member(K_UUID, Str(e.uuid)),
         Member(K_PROPERTIES, Obj(PropMembers(c, e)))])
  }

  function EventDocs(c: Ctx, evs: seq<Event>): (ds: seq<Doc>)
    ensures |ds| == |evs|
  {
    if evs == [] then [] else EventDocs(c, evs[..|evs| - 1]) + [EventDoc(c, evs[|evs| - 1])]
  }

  function BatchDoc(c: Ctx, evs: seq<Event>): Doc {
    Obj([Member(K_API_KEY, Str(c.apiKey)), Member(K_MIGRATION, Bool(false)),
         Member(K_BATCH, Arr(EventDocs(c, evs)))])
  }

  /** The body POSTed or spilled for a run of events. */
  function Body(c: Ctx, evs: seq<Event>): bytes {
    Print(BatchDoc(c, evs))
  }

  // --------------------------------------------------------------- emission

  /** The buffer holds the members ms after pre; first says that no comma is due. */
  ghost predicate Emitted(out: bytes, first: bool, pre: bytes, ms: seq<Member>) {
    out == pre + MembersTo(ms, []) && first == (ms == [])
  }

  lemma MemberText(m: Member)
    ensures MemberTo(m, []) == Quoted(m.key) + [COLON] + Print(m.val)
  {
    assert [QUOTE, COLON] + Print(m.val) == [QUOTE] + [COLON] + Print(m.val);
  }

  lemma ObjectText(ms: seq<Member>)
    ensures Print(Obj(ms)) == [LBRACE] + MembersTo(ms, []) + [RBRACE]
  {
    MembersAppend(ms, [], [RBRACE]);
    assert [] + [RBRACE] == [RBRACE] == [RBRACE] + [];
  }

  lemma ArrayText(items: seq<Doc>)
    ensures Print(Arr(items)) == [LBRACKET] + ItemsTo(items, []) + [RBRACKET]
  {
    ItemsAppend(items, [], [RBRACKET]);
    assert [] + [RBRACKET] == [RBRACKET] == [RBRACKET] + [];
  }

  lemma EmitStep(out: bytes, first: bool, pre: bytes, ms: seq<Member>, m: Member)
    requires Emitted(out, first, pre, ms)
    ensures Emitted(out + (if first then [] else [COMMA]) + (Quoted(m.key) + [COLON] + Print(m.val)),
                    false, pre, ms + [m])
  {
    MembersSnoc(ms, m);
    MemberText(m);
    var sep := if first then [] else [COMMA];
    ConcatAssoc(pre, MembersTo(ms, []), sep);
    ConcatAssoc(pre, MembersTo(ms, []) + sep, MemberTo(m, []));
  }

  /** Comma if due, key, colon, value. */
  method EmitPair(out: bytes, first: bool, key: bytes, text: bytes,
                  ghost pre: bytes, ghost ms: seq<Member>, ghost d: Doc)
    returns (r: bytes, f: bool)
    requires Emitted(out, first, pre, ms) && text == Print(d)
    ensures Emitted(r, f, pre, ms + [Member(key, d)])
    ensures !f
  {
    r := out;
    if !first {
      r := r + [COMMA];
    }
    var member := AppendString([], key);
    member := member + [COLON] + text;
    assert member == Quoted(key) + [COLON] + text;
    r := r + member;
    f := false;
    assert out + [] == out;
    EmitStep(out, first, pre, ms, Member(key, d));
  }

  method EmitText(out: bytes, first: bool, key: bytes, val: bytes, ghost pre: bytes, ghost ms: seq<Member>)
    returns (r: bytes, f: bool)
    requires Emitted(out, first, pre, ms)
    ensures Emitted(r, f, pre, ms + [Member(key, Str(val))])
    ensures !f
  {
    var text := AppendString([], val);
    assert text == Print(Str(val));
    r, f := EmitPair(out, first, key, text, pre, ms, Str(val));
  }

  method ValueText(c: Ctx, w: Walk, e: Entry) returns (text: bytes)
    ensures text == Print(EntryDoc(c, w, e))
  {
    if w.Top? && e.tag == PK_RAWJSON {
      text := e.val;
    } else if w.GroupScope? || e.tag == T_STR {
      text := AppendString([], e.val);
      assert text == Print(Str(e.val));
    } else if e.tag == T_DOUBLE {
      var d := c.double(if |e.val| == 8 then e.val else ZERO8);
      text := if d.Finite? then d.n.PrintTo([]) else NULL_TEXT;
    } else if e.tag == T_INT {
      var n := IntNumeral(if |e.val| == 8 then Int64(e.val) else 0);
      text := n.PrintTo([]);
    } else if e.tag == T_BOOL {
      text := if |e.val| >= 1 && e.val[0] != 0 then TRUE_TEXT else FALSE_TEXT;
    } else {
      text := NULL_TEXT;
    }
    assert NULL_TEXT + [] == NULL_TEXT && TRUE_TEXT + [] == TRUE_TEXT && FALSE_TEXT + [] == FALSE_TEXT;
    assert e.val + [] == e.val;
  }

  /** One entry read: what it contributes joins the members already out. */
  lemma WalkStep(c: Ctx, w: Walk, rest: bytes, ms: seq<Member>)
    requires BlobNext(rest).Next?
    ensures var s := BlobNext(rest);
            ms + EntryMembers(c, w, Entries(rest))
              == (ms + Pick(c, w, s.entry)) + EntryMembers(c, w, Entries(rest[s.width..]))
  {
    var s := BlobNext(rest);
    var more := Entries(rest[s.width..]);
    assert Entries(rest) == [s.entry] + more;
    assert Entries(rest)[1..] == more;
    ConcatAssoc(ms, Pick(c, w, s.entry), EntryMembers(c, w, more));
  }

  /** One walk over the blob appends exactly the members it selects. The rest is what lies
      between the cursor and the end. */
  method EmitWalk(c: Ctx, w: Walk, blob: bytes, out: bytes, first: bool, ghost pre: bytes, ghost ms: seq<Member>)
    returns (r: bytes, f: bool)
    requires Emitted(out, first, pre, ms)
    ensures Emitted(r, f, pre, ms + EntryMembers(c, w, Entries(blob)))
  {
    r, f := out, first;
    var rest := blob;
    ghost var so := ms;
    ghost var all := ms + EntryMembers(c, w, Entries(blob));
    while true
      invariant all == so + EntryMembers(c, w, Entries(rest))
      invariant Emitted(r, f, pre, so)
      decreases |rest|
    {
      var s := BlobNext(rest);
      if s.End? {
        assert so + [] == so;
        return;
      }
      WalkStep(c, w, rest, so);
      r, f := EmitPicked(c, w, s.entry, r, f, pre, so);
      so := so + Pick(c, w, s.entry);
      rest := rest[s.width..];
    }
  }

  method EmitPicked(c: Ctx, w: Walk, e: Entry, out: bytes, first: bool, ghost pre: bytes, ghost ms: seq<Member>)
    returns (r: bytes, f: bool)
    requires Emitted(out, first, pre, ms)
    ensures Emitted(r, f, pre, ms + Pick(c, w, e))
  {
    if Shown(w, e) {
      var text := ValueText(c, w, e);
      r, f := EmitPair(out, first, e.key, text, pre, ms, EntryDoc(c, w, e));
    } else {
      r, f := out, first;
      assert ms + [] == ms;
    }
  }

  /** An inner object, opened at its first member and closed at its end. */
  method EmitWrapped(c: Ctx, w: Walk, blob: bytes, key: bytes, always: bool, out: bytes, first: bool,
                     ghost pre: bytes, ghost ms: seq<Member>)
    returns (r: bytes, f: bool)
    requires Emitted(out, first, pre, ms)
    ensures var inner := EntryMembers(c, w, Entries(blob));
            Emitted(r, f, pre, ms + if always then [Member(key, Obj(inner))] else Wrapped(key, inner))
  {
    ghost var inner := EntryMembers(c, w, Entries(blob));
    assert [LBRACE] + MembersTo([], []) == [LBRACE];
    var text, none := EmitWalk(c, w, blob, [LBRACE], true, [LBRACE], []);
    assert [] + inner == inner;
    if none && !always {
      assert ms + [] == ms;
      return out, first;
    }
    ObjectText(inner);
    r, f := EmitPair(out, first, key, text + [RBRACE], pre, ms, Obj(inner));
  }

  method BlobHasScalar(blob: bytes, key: bytes) returns (has: bool)
    ensures has == HasScalar(Entries(blob), key)
  {
    var rest := blob;
    while true
      invariant HasScalar(Entries(blob), key) == HasScalar(Entries(rest), key)
      decreases |rest|
    {
      var s := BlobNext(rest);
      if s.End? {
        return false;
      }
      assert Entries(rest)[1..] == Entries(rest[s.width..]);
      if s.entry.Scalar() && s.entry.key == key {
        return true;
      }
      rest := rest[s.width..];
    }
  }

  method EmitAuto(c: Ctx, e: Event, key: bytes, val: bytes, out: bytes, first: bool,
                  ghost pre: bytes, ghost ms: seq<Member>)
    returns (r: bytes, f: bool)
    requires Emitted(out, first, pre, ms)
    ensures Emitted(r, f, pre, ms + AutoMember(c, e, key, val))
  {
    r, f := out, first;
    assert ms + [] == ms;
    if key in c.denylist {
      return;
    }
    if !e.kind.Identify? && !e.kind.Group? {
      var has := BlobHasScalar(e.blob, key);
      if has {
        return;
      }
    }
    r, f := EmitText(r, f, key, val, pre, ms);
  }

  method EmitFixed(c: Ctx, e: Event, ghost pre: bytes, out: bytes) returns (r: bytes, f: bool)
    requires out == pre
    ensures Emitted(r, f, pre, FixedMembers(c, e))
  {
    assert pre + MembersTo([], []) == pre;
    r, f := EmitText(out, true, K_DISTINCT_ID, DistinctId(c, e), pre, []);
    var m1 := [Member(K_DISTINCT_ID, Str(DistinctId(c, e)))];
    assert [] + m1 == m1;
    r, f := EmitText(r, f, K_LIB, V_LIB, pre, m1);
    var m2 := m1 + [Member(K_LIB, Str(V_LIB))];
    r, f := EmitText(r, f, K_LIB_VERSION, c.version, pre, m2);
    var m3 := m2 + [Member(K_LIB_VERSION, Str(c.version))];
    r, f := EmitText(r, f, K_LIB_BACKEND, c.backend, pre, m3);
    assert m3 + [Member(K_LIB_BACKEND, Str(c.backend))] == FixedMembers(c, e);
  }

  method EmitAutos(c: Ctx, e: Event, out: bytes, first: bool, ghost pre: bytes, ghost ms: seq<Member>)
    returns (r: bytes, f: bool)
    requires Emitted(out, first, pre, ms)
    ensures Emitted(r, f, pre, ms + AutoMembers(c, e))
  {
    ghost var os, arch := AutoMember(c, e, K_OS, c.os), AutoMember(c, e, K_ARCH, c.arch);
    r, f := EmitAuto(c, e, K_OS, c.os, out, first, pre, ms);
    r, f := EmitAuto(c, e, K_ARCH, c.arch, r, f, pre, ms + os);
    ghost var rel: seq<Member> := [];
    ghost var so := ms + os + arch;
    assert so + [] == so;
    if c.release != [] {
      rel := AutoMember(c, e, K_RELEASE, c.release);
      r, f := EmitAuto(c, e, K_RELEASE, c.release, r, f, pre, so);
    }
    ghost var last: seq<Member> := [];
    assert so + rel + [] == so + rel;
    if e.noProfile {
      last := [Member(K_PROFILE, Bool(false))];
      assert FALSE_TEXT + [] == FALSE_TEXT;
      r, f := EmitPair(r, f, K_PROFILE, FALSE_TEXT, pre, so + rel, Bool(false));
    }
    assert ms + AutoMembers(c, e) == so + rel + last;
  }

  method EmitKind(c: Ctx, e: Event, out: bytes, first: bool, ghost pre: bytes, ghost ms: seq<Member>)
    returns (r: bytes, f: bool)
    requires Emitted(out, first, pre, ms)
    ensures Emitted(r, f, pre, ms + KindMembers(c, e))
  {
    ghost var es := Entries(e.blob);
    match e.kind {
      case Identify =>
        r, f := EmitWrapped(c, Top(false, false), e.blob, K_SET, true, out, first, pre, ms);
      case Group =>
        r, f := EmitTwo(c, GroupIds, GroupSet, K_GROUP_SET, e.blob, out, first, pre, ms);
      case _ =>
        r, f := EmitTwo(c, Top(c.disableGeoip, true), GroupScope, K_GROUPS, e.blob, out, first, pre, ms);
    }
  }

  method EmitTwo(c: Ctx, w: Walk, inner: Walk, key: bytes, blob: bytes, out: bytes, first: bool,
                 ghost pre: bytes, ghost ms: seq<Member>)
    returns (r: bytes, f: bool)
    requires Emitted(out, first, pre, ms)
    ensures var es := Entries(blob);
            Emitted(r, f, pre, ms + (EntryMembers(c, w, es) + Wrapped(key, EntryMembers(c, inner, es))))
  {
    ghost var es := Entries(blob);
    r, f := EmitWalk(c, w, blob, out, first, pre, ms);
    r, f := EmitWrapped(c, inner, blob, key, false, r, f, pre, ms + EntryMembers(c, w, es));
    ConcatAssoc(ms, EntryMembers(c, w, es), Wrapped(key, EntryMembers(c, inner, es)));
  }

  /** The properties object of one event. */
  method PropertiesText(c: Ctx, e: Event) returns (text: bytes)
    ensures text == Print(Obj(PropMembers(c, e)))
  {
    var f;
    ghost var pre: bytes := [LBRACE];
    text, f := EmitFixed(c, e, pre, [LBRACE]);
    ghost var m1 := FixedMembers(c, e);
    text, f := EmitAutos(c, e, text, f, pre, m1);
    ghost var m2 := m1 + AutoMembers(c, e);
    text, f := EmitKind(c, e, text, f, pre, m2);
    ghost var m3 := m2 + KindMembers(c, e);
    assert m3 + [] == m3;
    if c.disableGeoip {
      assert TRUE_TEXT + [] == TRUE_TEXT;
      text, f := EmitPair(text, f, K_GEOIP, TRUE_TEXT, pre, m3, Bool(true));
    }
    ObjectText(PropMembers(c, e));
    text := text + [RBRACE];
  }

  /** One event object. */
  method EventText(c: Ctx, e: Event) returns (text: bytes)
    ensures text == Print(EventDoc(c, e))
  {
    ghost var pre: bytes := [LBRACE];
    assert pre + MembersTo([], []) == pre;
    var props := PropertiesText(c, e);
    var f;
    text, f := EmitText([LBRACE], true, K_EVENT, e.name, pre, []);
    ghost var m1 := [Member(K_EVENT, Str(e.name))];
    assert [] + m1 == m1;
    text, f := EmitText(text, f, K_TIMESTAMP, e.iso, pre, m1);
    ghost var m2 := m1 + [Member(K_TIMESTAMP, Str(e.iso))];
    text, f := EmitText(text, f, K_UUID, e.uuid, pre, m2);
    ghost var m3 := m2 + [Member(K_UUID, Str(e.uuid))];
    text, f := EmitPair(text, f, K_PROPERTIES, props, pre, m3, Obj(PropMembers(c, e)));
    ghost var m4 := m3 + [Member(K_PROPERTIES, Obj(PropMembers(c, e)))];
    assert EventDoc(c, e) == Obj(m4);
    ObjectText(m4);
    text := text + [RBRACE];
  }

  lemma {:induction false} DocsSnoc(c: Ctx, evs: seq<Event>, i: nat, d: Doc)
    requires i < |evs| && d == EventDoc(c, evs[i])
    ensures EventDocs(c, evs[..i + 1]) == EventDocs(c, evs[..i]) + [d]
  {
    var t := evs[..i + 1];
    assert t[..|t| - 1] == evs[..i] && t[|t| - 1] == evs[i];
  }

  /** A comma unless it is the first, then the event. */
  method AppendEvent(c: Ctx, evs: seq<Event>, i: nat, items: bytes) returns (r: bytes)
    requires i < |evs| && items == ItemsTo(EventDocs(c, evs[..i]), [])
    ensures r == ItemsTo(EventDocs(c, evs[..i + 1]), [])
  {
    var one := EventText(c, evs[i]);
    ghost var ds, d := EventDocs(c, evs[..i]), EventDoc(c, evs[i]);
    DocsSnoc(c, evs, i, d);
    ItemsSnoc(ds, d);
    assert items + [] == items;
    r := if i > 0 then items + [COMMA] else items;
    r := r + one;
  }

  method ItemsText(c: Ctx, evs: seq<Event>) returns (text: bytes)
    ensures text == Print(Arr(EventDocs(c, evs)))
  {
    var items: bytes := [];
    var i := 0;
    assert EventDocs(c, evs[..0]) == [];
    while i < |evs|
      invariant 0 <= i <= |evs|
      invariant items == ItemsTo(EventDocs(c, evs[..i]), [])
    {
      items := AppendEvent(c, evs, i, items);
      i := i + 1;
    }
    assert evs[..i] == evs;
    ArrayText(EventDocs(c, evs));
    text := [LBRACKET] + items + [RBRACKET];
  }

  /** The serializer prints exactly the envelope document. */
  method SerializeBatch(c: Ctx, evs: seq<Event>) returns (body: bytes)
    ensures body == Body(c, evs)
  {
    ghost var pre: bytes := [LBRACE];
    assert pre + MembersTo([], []) == pre;
    var items := ItemsText(c, evs);
    var f;
    body, f := EmitText([LBRACE], true, K_API_KEY, c.apiKey, pre, []);
    ghost var m1 := [Member(K_API_KEY, Str(c.apiKey))];
    assert [] + m1 == m1;
    assert FALSE_TEXT + [] == FALSE_TEXT;
    body, f := EmitPair(body, f, K_MIGRATION, FALSE_TEXT, pre, m1, Bool(false));
    ghost var m2 := m1 + [Member(K_MIGRATION, Bool(false))];
    body, f := EmitPair(body, f, K_BATCH, items, pre, m2, Arr(EventDocs(c, evs)));
    ghost var m3 := m2 + [Member(K_BATCH, Arr(EventDocs(c, evs)))];
    assert BatchDoc(c, evs) == Obj(m3);
    ObjectText(m3);
    body := body + [RBRACE];
  }
}
