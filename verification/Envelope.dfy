/**
 What the replay relies on: every serialized batch reads back as an object
 whose "batch" array has one element per event, and holds no control byte, so
 it fits on one line of the spill file and is recounted there correctly.
 */
module Envelope {
  import opened Bytes
  import opened Options
  import opened Props
  import opened Events
  import opened JsonText
  import opened JsonReader
  import opened Serializer
  import JsonCursor
  import JsonRoundTrip
  import Utf8

  /** The number of events a spilled line stands for. */
  function BatchCount(line: bytes): nat {
    var root := Parse(line);
    if root.Fail? then 0 else BatchLength(root.val)
  }

  /** The length of the batch array, or 0 when there is none. */
  function BatchLength(root: Value): nat {
    var batch := Get(root, K_BATCH);
    if batch.Done? && batch.val.VArr? then |batch.val.items| else 0
  }

  method CountEvents(line: bytes) returns (n: nat)
    ensures n == BatchCount(line)
  {
    n := 0;
    var ok, root := JsonCursor.ParseText(line);
    if ok && root.VObj? {
      var i := 0;
      ghost var fs := root.fields;
      assert fs[0..] == fs;
      while i < |root.fields|
        invariant 0 <= i <= |fs|
        invariant FieldOf(fs, K_BATCH) == FieldOf(fs[i..], K_BATCH)
        invariant n == 0
      {
        assert fs[i..][1..] == fs[i + 1..];
        if root.fields[i].0 == K_BATCH {
          var batch := root.fields[i].1;
          n := if batch.VArr? then |batch.items| else 0;
          return;
        }
        i := i + 1;
      }
    }
  }

  // ----------------------------------------------------- documents are sound

  lemma KeysAreNulFree()
    ensures NulFree(K_EVENT) && NulFree(K_TIMESTAMP) && NulFree(K_UUID) && NulFree(K_PROPERTIES)
    ensures NulFree(K_API_KEY) && NulFree(K_MIGRATION) && NulFree(K_BATCH) && NulFree(K_DISTINCT_ID)
    ensures NulFree(K_LIB) && NulFree(K_LIB_VERSION) && NulFree(K_LIB_BACKEND) && NulFree(K_OS)
    ensures NulFree(K_ARCH) && NulFree(K_RELEASE) && NulFree(K_PROFILE) && NulFree(K_GROUPS)
    ensures NulFree(K_GROUP_SET) && NulFree(K_SET) && NulFree(K_GEOIP) && NulFree(V_LIB)
  {
  }

  /** Members fit to stand in an object at the given depth. */
  ghost predicate MembersOk(ms: seq<Member>, depth: nat) {
    forall i | 0 <= i < |ms| :: NulFree(ms[i].key) && DocOk(ms[i].val, depth + 1)
  }

  lemma MembersOkAppend(a: seq<Member>, b: seq<Member>, depth: nat)
    requires MembersOk(a, depth) && MembersOk(b, depth)
    ensures MembersOk(a + b, depth)
  {
  }

  lemma RawLower(text: bytes, depth: nat)
    requires WellFormedRaw(text, RAW_DEPTH) && depth <= RAW_DEPTH
    ensures WellFormedRaw(text, depth)
  {
    var d :| Pure(d, RAW_DEPTH) && text == Print(d);
    PureLower(d, RAW_DEPTH, depth);
  }

  lemma EntryDocOk(c: Ctx, w: Walk, e: Entry, depth: nat)
    requires EntryOk(e) && depth <= RAW_DEPTH && Shown(w, e)
    ensures DocOk(EntryDoc(c, w, e), depth)
  {
    if w.Top? && e.tag == PK_RAWJSON {
      RawLower(e.val, depth);
    }
  }

  lemma {:induction false} EntryMembersOk(c: Ctx, w: Walk, es: seq<Entry>, depth: nat)
    requires EntriesOk(es) && depth < RAW_DEPTH
    ensures MembersOk(EntryMembers(c, w, es), depth)
    decreases |es|
  {
    if es != [] {
      EntryMembersOk(c, w, es[1..], depth);
      if Shown(w, es[0]) {
        EntryDocOk(c, w, es[0], depth + 1);
      }
      MembersOkAppend(Pick(c, w, es[0]), EntryMembers(c, w, es[1..]), depth);
    }
  }

  lemma KindMembersOk(c: Ctx, e: Event)
    requires CtxOk(c) && EventOk(e)
    ensures MembersOk(KindMembers(c, e), 3)
  {
    KeysAreNulFree();
    var es := Entries(e.blob);
    match e.kind
    case Identify =>
      EntryMembersOk(c, Top(false, false), es, 4);
    case Group =>
      EntryMembersOk(c, GroupIds, es, 3);
      EntryMembersOk(c, GroupSet, es, 4);
      MembersOkAppend(EntryMembers(c, GroupIds, es), Wrapped(K_GROUP_SET, EntryMembers(c, GroupSet, es)), 3);
    case _ =>
      var w := Top(c.disableGeoip, true);
      EntryMembersOk(c, w, es, 3);
      EntryMembersOk(c, GroupScope, es, 4);
      MembersOkAppend(EntryMembers(c, w, es), Wrapped(K_GROUPS, EntryMembers(c, GroupScope, es)), 3);
  }

  lemma AutoMembersOk(c: Ctx, e: Event)
    requires CtxOk(c) && EventOk(e)
    ensures MembersOk(FixedMembers(c, e), 3) && MembersOk(AutoMembers(c, e), 3) && MembersOk(GeoMembers(c), 3)
  {
    KeysAreNulFree();
    var a, b := AutoMember(c, e, K_OS, c.os), AutoMember(c, e, K_ARCH, c.arch);
    var r := if c.release == [] then [] else AutoMember(c, e, K_RELEASE, c.release);
    var n := if e.noProfile then [Member(K_PROFILE, Bool(false))] else [];
    MembersOkAppend(a, b, 3);
    MembersOkAppend(a + b, r, 3);
    MembersOkAppend(a + b + r, n, 3);
  }

  lemma {:induction false} EventDocOk(c: Ctx, e: Event)
    requires CtxOk(c) && EventOk(e)
    ensures DocOk(EventDoc(c, e), 2)
  {
    KeysAreNulFree();
    PropMembersOk(c, e);
    assert DocOk(Obj(PropMembers(c, e)), 3);
  }

  lemma {:induction false} PropMembersOk(c: Ctx, e: Event)
    requires CtxOk(c) && EventOk(e)
    ensures MembersOk(PropMembers(c, e), 3)
  {
    AutoMembersOk(c, e);
    KindMembersOk(c, e);
    var f, a, k := FixedMembers(c, e), AutoMembers(c, e), KindMembers(c, e);
    MembersOkAppend(f, a, 3);
    MembersOkAppend(f + a, k, 3);
    MembersOkAppend(f + a + k, GeoMembers(c), 3);
  }

  lemma {:induction false} EventDocsOk(c: Ctx, evs: seq<Event>)
    requires CtxOk(c) && EventsOk(evs)
    ensures forall i | 0 <= i < |evs| :: DocOk(EventDocs(c, evs)[i], 2)
    decreases |evs|
  {
    if evs != [] {
      EventDocsOk(c, evs[..|evs| - 1]);
      EventDocOk(c, evs[|evs| - 1]);
    }
  }

  lemma BatchDocOk(c: Ctx, evs: seq<Event>)
    requires CtxOk(c) && EventsOk(evs)
    ensures DocOk(BatchDoc(c, evs), 0)
  {
    KeysAreNulFree();
    EventDocsOk(c, evs);
    assert DocOk(Arr(EventDocs(c, evs)), 1);
  }

  // --------------------------------------------------------------- the count

  lemma EnvelopeKeys()
    ensures Utf8.Sanitize(K_API_KEY) != K_BATCH && Utf8.Sanitize(K_MIGRATION) != K_BATCH
    ensures Utf8.Sanitize(K_BATCH) == K_BATCH
  {
    SanitizeAscii(K_API_KEY);
    SanitizeAscii(K_MIGRATION);
    SanitizeAscii(K_BATCH);
    assert |K_API_KEY| == 7 && |K_MIGRATION| == 20 && |K_BATCH| == 5;
  }

  lemma {:induction false} SanitizeAscii(s: bytes)
    requires forall i | 0 <= i < |s| :: s[i] < 0x80
    ensures Utf8.Sanitize(s) == s
    decreases |s|
  {
    if s != [] {
      SanitizeAscii(s[1..]);
      assert s == s[..1] + s[1..];
    }
  }

  lemma {:induction false} ThirdField(a: Member, b: Member, m: Member)
    requires Utf8.Sanitize(a.key) != m.key && Utf8.Sanitize(b.key) != m.key && Utf8.Sanitize(m.key) == m.key
    ensures FieldOf(FieldsOf([a, b, m]), m.key) == Done(ValueOf(m.val), [])
  {
    var fs := FieldsOf([a, b, m]);
    assert [a, b, m][1..] == [b, m] && [b, m][1..] == [m] && [m][1..] == [];
    assert fs == [(Utf8.Sanitize(a.key), ValueOf(a.val))] + FieldsOf([b, m]);
    assert fs[1..] == FieldsOf([b, m]) == [(Utf8.Sanitize(b.key), ValueOf(b.val))] + FieldsOf([m]);
    assert fs[1..][1..] == FieldsOf([m]);
    assert FieldsOf([m])[0] == (m.key, ValueOf(m.val));
    assert FieldOf(fs, m.key) == FieldOf(fs[1..], m.key);
    assert FieldOf(fs[1..], m.key) == FieldOf(fs[1..][1..], m.key);
  }

  lemma {:induction false} BodyParses(c: Ctx, evs: seq<Event>)
    requires CtxOk(c) && EventsOk(evs)
    ensures Parse(Body(c, evs)) == Done(ValueOf(BatchDoc(c, evs)), [])
  {
    BatchDocOk(c, evs);
    JsonRoundTrip.ParsePrinted(BatchDoc(c, evs));
  }

  /** The envelope law: a serialized batch is recounted as exactly its events. */
  lemma {:induction false} BodyCount(c: Ctx, evs: seq<Event>)
    requires CtxOk(c) && EventsOk(evs)
    ensures Parse(Body(c, evs)) == Done(ValueOf(BatchDoc(c, evs)), [])
    ensures BatchCount(Body(c, evs)) == |evs|
  {
    BodyParses(c, evs);
    BatchDocLength(c, evs);
  }

  lemma {:induction false} BatchDocLength(c: Ctx, evs: seq<Event>)
    ensures BatchLength(ValueOf(BatchDoc(c, evs))) == |evs|
  {
    EnvelopeKeys();
    ThirdLength(Member(K_API_KEY, Str(c.apiKey)), Member(K_MIGRATION, Bool(false)), EventDocs(c, evs));
  }

  lemma {:induction false} ThirdLength(a: Member, b: Member, items: seq<Doc>)
    requires Utf8.Sanitize(a.key) != K_BATCH && Utf8.Sanitize(b.key) != K_BATCH && Utf8.Sanitize(K_BATCH) == K_BATCH
    ensures BatchLength(ValueOf(Obj([a, b, Member(K_BATCH, Arr(items))]))) == |items|
  {
    var m := Member(K_BATCH, Arr(items));
    ThirdField(a, b, m);
    assert ValueOf(Obj([a, b, m])) == VObj(FieldsOf([a, b, m]));
    assert ValueOf(m.val) == VArr(ValuesOf(items));
  }

  // --------------------------------------------------------- no control bytes

  lemma NumeralPrintable(n: Numeral)
    requires n.Ok()
    ensures Printable(n.PrintTo([]))
  {
    assert Printable(n.whole) && Printable(n.frac) && Printable(n.exp) && Printable(n.mark);
    assert Printable(n.ExpTo([]));
    assert Printable(n.FracTo([]));
  }

  lemma PrintableAppend(a: bytes, b: bytes)
    requires Printable(a) && Printable(b)
    ensures Printable(a + b)
  {
  }

  lemma {:induction false} PrintIsPrintable(d: Doc, depth: nat, rest: bytes, pure: bool)
    requires DocOk(d, depth) && (pure ==> Pure(d, depth)) && Printable(rest)
    ensures Printable(PrintTo(d, rest))
    decreases if pure then 0 else 1, d, 1
  {
    match d
    case Null =>
    case Bool(_) =>
    case Num(n) =>
      NumeralPrintable(n);
      NumeralAppend(n, [], rest);
      assert [] + rest == rest;
    case Str(s) => EscapePrintable(s);
    case Arr(items) => ItemsPrintable(items, depth, [RBRACKET] + rest, pure);
    case Obj(members) => MembersPrintable(members, depth, [RBRACE] + rest, pure);
    case Raw(text) => RawPrintable(text, depth, rest);
  }

  lemma {:induction false} RawPrintable(text: bytes, depth: nat, rest: bytes)
    requires WellFormedRaw(text, depth) && Printable(rest)
    ensures Printable(text + rest)
    decreases 1, Raw(text), 0
  {
    var e :| Pure(e, depth) && text == Print(e);
    PureIsOk(e, depth);
    PrintIsPrintable(e, depth, [], true);
  }

  lemma {:induction false} ItemsPrintable(items: seq<Doc>, depth: nat, rest: bytes, pure: bool)
    requires forall i | 0 <= i < |items| :: DocOk(items[i], depth + 1) && (pure ==> Pure(items[i], depth + 1))
    requires Printable(rest)
    ensures Printable(ItemsTo(items, rest))
    decreases if pure then 0 else 1, items, 0
  {
    if items != [] {
      if |items| > 1 {
        ItemsPrintable(items[1..], depth, rest, pure);
      }
      PrintIsPrintable(items[0], depth + 1,
                       if |items| == 1 then rest else [COMMA] + ItemsTo(items[1..], rest), pure);
    }
  }

  lemma {:induction false} MembersPrintable(members: seq<Member>, depth: nat, rest: bytes, pure: bool)
    requires forall i | 0 <= i < |members| ::
               DocOk(members[i].val, depth + 1) && (pure ==> Pure(members[i].val, depth + 1))
    requires Printable(rest)
    ensures Printable(MembersTo(members, rest))
    decreases if pure then 0 else 1, members, 0
  {
    if members != [] {
      if |members| > 1 {
        MembersPrintable(members[1..], depth, rest, pure);
      }
      var tail := if |members| == 1 then rest else [COMMA] + MembersTo(members[1..], rest);
      var m := members[0];
      PrintIsPrintable(m.val, depth + 1, tail, pure);
      EscapePrintable(m.key);
      PrintableAppend(Escape(m.key), [QUOTE, COLON] + PrintTo(m.val, tail));
    }
  }

  /** A serialized batch holds no byte below 0x20, so it is one line, and not an empty one. */
  lemma BodyIsOneLine(c: Ctx, evs: seq<Event>)
    requires CtxOk(c) && EventsOk(evs)
    ensures Printable(Body(c, evs))
    ensures LF !in Body(c, evs)
    ensures Body(c, evs) != []
  {
    BatchDocOk(c, evs);
    PrintIsPrintable(BatchDoc(c, evs), 0, [], false);
  }

  // -------------------------------------------- the one source of raw entries

  datatype Frame = Frame(inApp: bool, fn: Option<bytes>, file: Option<bytes>, mod: Option<bytes>, line: nat)

  predicate FrameOk(f: Frame) {
    && (f.fn.Some? ==> NulFree(f.fn.value))
    && (f.file.Some? ==> NulFree(f.file.value))
    && (f.mod.Some? ==> NulFree(f.mod.value))
  }

  function Optional(key: bytes, v: Option<bytes>): seq<Member> {
    if v.Some? then [Member(key, Str(v.value))] else []
  }

  function FrameDoc(f: Frame): Doc {
    Obj([Member(Text("platform"), Str(Text("custom"))), Member(Text("lang"), Str(Text("cpp"))),
         Member(Text("in_app"), Bool(f.inApp))]
        + Optional(Text("function"), f.fn) + Optional(Text("filename"), f.file)
        + Optional(Text("module"), f.mod)
        + (if f.line > 0 then [Member(Text("lineno"), Num(IntNumeral(f.line)))] else [])
        + [Member(Text("resolved"), Bool(true))])
  }

  /** The $exception_list payload for the frames that fit the builder's budget. */
  function ExceptionDoc(kind: bytes, message: bytes, handled: bool, synthetic: bool, frames: seq<Frame>): Doc {
    Arr([Obj([
      Member(Text("type"), Str(kind)),
      Member(Text("value"), Str(message)),
      Member(Text("mechanism"),
             Obj([Member(Text("handled"), Bool(handled)), Member(Text("synthetic"), Bool(synthetic))])),
      Member(Text("stacktrace"), Obj([
        Member(Text("type"), Str(Text("raw"))),
        Member(Text("frames"), Arr(seq(|frames|, i requires 0 <= i < |frames| => FrameDoc(frames[i]))))]))])])
  }

  predicate PureMembers(ms: seq<Member>, depth: nat) {
    forall i | 0 <= i < |ms| :: NulFree(ms[i].key) && Pure(ms[i].val, depth + 1)
  }

  lemma PureMembersAppend(a: seq<Member>, b: seq<Member>, depth: nat)
    requires PureMembers(a, depth) && PureMembers(b, depth)
    ensures PureMembers(a + b, depth)
  {
  }

  lemma FramePure(f: Frame)
    requires FrameOk(f)
    ensures Pure(FrameDoc(f), RAW_DEPTH + 4)
  {
    var a := [Member(Text("platform"), Str(Text("custom"))), Member(Text("lang"), Str(Text("cpp"))),
              Member(Text("in_app"), Bool(f.inApp))];
    var b, c := Optional(Text("function"), f.fn), Optional(Text("filename"), f.file);
    var d := Optional(Text("module"), f.mod);
    var l := if f.line > 0 then [Member(Text("lineno"), Num(IntNumeral(f.line)))] else [];
    var depth := RAW_DEPTH + 4;
    PureMembersAppend(a, b, depth);
    PureMembersAppend(a + b, c, depth);
    PureMembersAppend(a + b + c, d, depth);
    PureMembersAppend(a + b + c + d, l, depth);
    PureMembersAppend(a + b + c + d + l, [Member(Text("resolved"), Bool(true))], depth);
  }

  /** The exception builder's payload is a well-formed raw entry, whatever the caller's text. */
  lemma ExceptionListIsWellFormed(kind: bytes, message: bytes, handled: bool, synthetic: bool, frames: seq<Frame>)
    requires NulFree(kind) && NulFree(message) && forall i | 0 <= i < |frames| :: FrameOk(frames[i])
    ensures WellFormedRaw(Print(ExceptionDoc(kind, message, handled, synthetic, frames)), RAW_DEPTH)
  {
    var d := ExceptionDoc(kind, message, handled, synthetic, frames);
    var docs := seq(|frames|, i requires 0 <= i < |frames| => FrameDoc(frames[i]));
    forall i | 0 <= i < |docs| ensures Pure(docs[i], RAW_DEPTH + 4) {
      FramePure(frames[i]);
    }
    assert Pure(Arr(docs), RAW_DEPTH + 3);
    var o := d.items[0];
    assert Pure(o.members[3].val, RAW_DEPTH + 2);
    assert Pure(o.members[2].val, RAW_DEPTH + 2);
    assert Pure(o, RAW_DEPTH + 1);
    assert Pure(d, RAW_DEPTH);
  }
}
