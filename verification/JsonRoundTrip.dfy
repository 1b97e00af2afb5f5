/** Reading back a whole printed document. */
module JsonRoundTrip {
  import opened Bytes
  import opened JsonText
  import opened JsonReader
  import Utf8

  /** What may follow a value inside a compact document. */
  predicate Stop(rest: bytes) {
    rest == [] || rest[0] == COMMA || rest[0] == RBRACKET || rest[0] == RBRACE
  }

  lemma {:induction false} SpanDigits(d: bytes, t: bytes)
    requires Digits(d) && (t == [] || !IsDigit(t[0]))
    ensures Span(d + t) == |d|
    decreases |d|
  {
    if d == [] {
      assert d + t == t;
    } else {
      assert (d + t)[1..] == d[1..] + t;
      SpanDigits(d[1..], t);
    }
  }

  lemma {:induction false} ExpRoundTrip(n: Numeral, rest: bytes)
    requires n.Ok() && Stop(rest)
    ensures SkipExp(n.ExpTo(rest)) == Done((), rest)
  {
    var s := n.ExpTo(rest);
    if n.mark == [] {
      assert s == rest;
    } else {
      var t := n.exp + rest;
      assert s[|n.mark|..] == t;
      SpanDigits(n.exp, rest);
      assert t[|n.exp|..] == rest;
    }
  }

  lemma {:induction false} FracRoundTrip(n: Numeral, rest: bytes)
    requires n.Ok() && Stop(rest)
    ensures SkipFrac(n.FracTo(rest)) == Done((), n.ExpTo(rest))
  {
    var s, t := n.FracTo(rest), n.ExpTo(rest);
    if n.frac != [] {
      assert s[1..] == n.frac + t;
      assert t == [] || !IsDigit(t[0]);
      SpanDigits(n.frac, t);
      assert s[1 + |n.frac|..] == t;
    }
  }

  lemma {:induction false} WholeRoundTrip(n: Numeral, rest: bytes)
    requires n.Ok() && Stop(rest)
    ensures SkipWhole(n.whole + n.FracTo(rest)) == Done((), n.FracTo(rest))
  {
    var t := n.FracTo(rest);
    var s := n.whole + t;
    assert t == [] || !IsDigit(t[0]);
    SpanDigits(n.whole, t);
    assert s[|n.whole|..] == t;
    assert IsDigit(s[0]);
    if s[0] == 48 {
      assert |s| > 1 ==> s[1] == t[0];
    }
  }

  lemma {:induction false} UnsignedRoundTrip(n: Numeral, rest: bytes)
    requires n.Ok() && Stop(rest)
    ensures var u := n.whole + n.FracTo(rest);
            u != [] && u[0] != MINUS && SkipUnsigned(u) == Done((), rest)
  {
    WholeRoundTrip(n, rest);
    FracRoundTrip(n, rest);
    ExpRoundTrip(n, rest);
  }

  lemma {:induction false} NumberText(n: Numeral, rest: bytes)
    ensures |n.PrintTo(rest)| >= |rest|
    ensures n.PrintTo(rest)[..|n.PrintTo(rest)| - |rest|] == n.PrintTo([])
  {
    NumeralAppend(n, [], rest);
    assert [] + rest == rest;
  }

  lemma {:induction false} ReadNumberParts(s: bytes, u: bytes, rest: bytes, text: bytes)
    requires s == u || s == [MINUS] + u
    requires u != [] && u[0] != MINUS
    requires SkipUnsigned(u) == Done((), rest)
    requires |s| >= |rest| && text == s[..|s| - |rest|]
    ensures ReadNumber(s) == Done(text, rest)
  {
    if s == [MINUS] + u {
      assert s[1..] == u;
    }
  }

  lemma {:induction false} NumberRoundTrip(n: Numeral, rest: bytes)
    requires n.Ok() && Stop(rest)
    ensures ReadNumber(n.PrintTo(rest)) == Done(n.PrintTo([]), rest)
  {
    var u := n.whole + n.FracTo(rest);
    assert n.PrintTo(rest) == if n.neg then [MINUS] + u else [] + u;
    assert [] + u == u;
    UnsignedRoundTrip(n, rest);
    NumberText(n, rest);
    ReadNumberParts(n.PrintTo(rest), u, rest, n.PrintTo([]));
  }

  lemma {:induction false} NumeralStart(n: Numeral, rest: bytes)
    requires n.Ok()
    ensures n.PrintTo(rest) != []
    ensures n.PrintTo(rest)[0] == MINUS || IsDigit(n.PrintTo(rest)[0])
  {
  }

  lemma {:induction false} LiteralRoundTrip(rest: bytes)
    ensures ReadLiteral(TRUE_TEXT + rest) == Done(VBool(true), rest)
    ensures ReadLiteral(FALSE_TEXT + rest) == Done(VBool(false), rest)
    ensures ReadLiteral(NULL_TEXT + rest) == Done(VNull, rest)
  {
    assert (TRUE_TEXT + rest)[4..] == rest;
    assert (FALSE_TEXT + rest)[5..] == rest;
    assert (NULL_TEXT + rest)[4..] == rest;
    assert (FALSE_TEXT + rest)[0] != TRUE_TEXT[0];
    assert (NULL_TEXT + rest)[0] != TRUE_TEXT[0];
    assert (NULL_TEXT + rest)[0] != FALSE_TEXT[0];
  }

  /** The first byte of a printed value: never a space or a closing bracket. */
  lemma {:induction false} PrintStart(d: Doc, depth: nat, rest: bytes)
    requires DocOk(d, depth)
    ensures PrintTo(d, rest) != []
    ensures !IsSpace(PrintTo(d, rest)[0])
    ensures PrintTo(d, rest)[0] != RBRACKET && PrintTo(d, rest)[0] != RBRACE
    decreases if d.Raw? then 1 else 0
  {
    match d
    case Num(n) => NumeralStart(n, rest);
    case Raw(text) =>
      var e :| Pure(e, depth) && text == Print(e);
      PureIsOk(e, depth);
      PrintStart(e, depth, []);
    case _ =>
  }

  lemma {:induction false} NumberScalar(s: bytes, text: bytes, rest: bytes)
    requires s != [] && (s[0] == MINUS || IsDigit(s[0])) && ReadNumber(s) == Done(text, rest)
    ensures ReadScalar(s) == Done(VNum(text), rest)
  {
  }

  /** A value that starts with neither a space nor an opening bracket is a scalar. */
  lemma {:induction false} ValueIsScalar(s: bytes, depth: nat)
    requires s != [] && !IsSpace(s[0]) && s[0] != LBRACE && s[0] != LBRACKET && depth <= MAX_DEPTH
    ensures ReadValue(s, depth) == ReadScalar(s)
  {
    assert SkipSpace(s) == s;
  }

  lemma {:induction false} NumberValue(n: Numeral, depth: nat, rest: bytes)
    requires n.Ok() && depth <= MAX_DEPTH && Stop(rest)
    ensures ReadValue(n.PrintTo(rest), depth) == Done(VNum(n.PrintTo([])), rest)
  {
    NumeralStart(n, rest);
    NumberRoundTrip(n, rest);
    ValueIsScalar(n.PrintTo(rest), depth);
    NumberScalar(n.PrintTo(rest), n.PrintTo([]), rest);
  }

  lemma {:induction false} LiteralValue(text: bytes, depth: nat, rest: bytes)
    requires depth <= MAX_DEPTH
    requires text == TRUE_TEXT || text == FALSE_TEXT || text == NULL_TEXT
    ensures ReadValue(text + rest, depth) == ReadLiteral(text + rest)
  {
    assert SkipSpace(text + rest) == text + rest;
  }

  lemma {:induction false} StringValue(b: bytes, depth: nat, rest: bytes)
    requires depth <= MAX_DEPTH && NulFree(b)
    ensures ReadValue([QUOTE] + (Escape(b) + ([QUOTE] + rest)), depth) == Done(VStr(Utf8.Sanitize(b)), rest)
  {
    StringRoundTrip(b, rest);
  }

  /** The document law: reading a printed document gives its value and leaves what follows.
      The flag says that d holds no raw fragment; a raw fragment's own document never does. */
  lemma {:induction false} RoundTrip(d: Doc, depth: nat, rest: bytes, pure: bool)
    requires DocOk(d, depth) && (pure ==> Pure(d, depth)) && Stop(rest)
    ensures ReadValue(PrintTo(d, rest), depth) == Done(ValueOf(d), rest)
    decreases if pure then 0 else 1, d, 1
  {
    match d
    case Null => LiteralValue(NULL_TEXT, depth, rest); LiteralRoundTrip(rest);
    case Bool(b) =>
      LiteralValue(if b then TRUE_TEXT else FALSE_TEXT, depth, rest);
      LiteralRoundTrip(rest);
    case Num(n) => NumberValue(n, depth, rest);
    case Str(b) => StringValue(b, depth, rest);
    case Arr(items) => ArrayRoundTrip(items, depth, rest, pure);
    case Obj(members) => ObjectRoundTrip(members, depth, rest, pure);
    case Raw(text) => RawRoundTrip(text, depth, rest);
  }

  lemma {:induction false} RawRoundTrip(text: bytes, depth: nat, rest: bytes)
    requires depth <= MAX_DEPTH && WellFormedRaw(text, depth) && Stop(rest)
    ensures ReadValue(text + rest, depth) == Done(ValueOf(Raw(text)), rest)
    decreases 1, Raw(text), 0
  {
    var e :| Pure(e, depth) && text == Print(e);
    PureIsOk(e, depth);
    PureLower(e, depth, 0);
    PureIsOk(e, 0);
    PrintAppend(e, [], rest);
    assert [] + rest == rest;
    RoundTrip(e, depth, rest, true);
    RoundTrip(e, 0, [], true);
    assert Parse(text) == Done(ValueOf(e), []);
  }

  lemma {:induction false} ArrayRoundTrip(items: seq<Doc>, depth: nat, rest: bytes, pure: bool)
    requires DocOk(Arr(items), depth) && (pure ==> Pure(Arr(items), depth))
    ensures ReadValue(PrintTo(Arr(items), rest), depth) == Done(VArr(ValuesOf(items)), rest)
    decreases if pure then 0 else 1, items, 1
  {
    var s := PrintTo(Arr(items), rest);
    var t := ItemsTo(items, [RBRACKET] + rest);
    assert s[1..] == t;
    if items == [] {
      assert t[1..] == rest;
    } else {
      var tail := if |items| == 1 then [RBRACKET] + rest else [COMMA] + ItemsTo(items[1..], [RBRACKET] + rest);
      PrintStart(items[0], depth + 1, tail);
      assert SkipSpace(t) == t;
      ItemsRoundTrip(items, depth, rest, [], pure);
      assert [] + ValuesOf(items) == ValuesOf(items);
    }
  }

  lemma {:induction false} ItemsRoundTrip(items: seq<Doc>, depth: nat, rest: bytes, acc: seq<Value>, pure: bool)
    requires items != []
    requires forall i | 0 <= i < |items| :: DocOk(items[i], depth + 1) && (pure ==> Pure(items[i], depth + 1))
    ensures ReadItems(ItemsTo(items, [RBRACKET] + rest), depth, acc) == Done(VArr(acc + ValuesOf(items)), rest)
    decreases if pure then 0 else 1, items, 0
  {
    var v := ValueOf(items[0]);
    assert ValuesOf(items) == [v] + ValuesOf(items[1..]);
    if |items| == 1 {
      RoundTrip(items[0], depth + 1, [RBRACKET] + rest, pure);
      assert ([RBRACKET] + rest)[1..] == rest;
      assert acc + ValuesOf(items) == acc + [v];
    } else {
      var more := ItemsTo(items[1..], [RBRACKET] + rest);
      RoundTrip(items[0], depth + 1, [COMMA] + more, pure);
      assert ([COMMA] + more)[1..] == more;
      ItemsRoundTrip(items[1..], depth, rest, acc + [v], pure);
      assert acc + ValuesOf(items) == (acc + [v]) + ValuesOf(items[1..]);
    }
  }

  lemma {:induction false} ObjectRoundTrip(members: seq<Member>, depth: nat, rest: bytes, pure: bool)
    requires DocOk(Obj(members), depth) && (pure ==> Pure(Obj(members), depth))
    ensures ReadValue(PrintTo(Obj(members), rest), depth) == Done(VObj(FieldsOf(members)), rest)
    decreases if pure then 0 else 1, members, 1
  {
    var s := PrintTo(Obj(members), rest);
    var t := MembersTo(members, [RBRACE] + rest);
    assert s[1..] == t;
    if members == [] {
      assert t[1..] == rest;
    } else {
      var tail := if |members| == 1 then [RBRACE] + rest else [COMMA] + MembersTo(members[1..], [RBRACE] + rest);
      assert t == MemberTo(members[0], tail) && t[0] == QUOTE;
      assert SkipSpace(t) == t;
      MembersRoundTrip(members, depth, rest, [], pure);
      assert [] + FieldsOf(members) == FieldsOf(members);
    }
  }

  /** One member: its key, its colon and its value. */
  lemma {:induction false} MemberRoundTrip(m: Member, depth: nat, rest: bytes, pure: bool)
    requires NulFree(m.key) && DocOk(m.val, depth + 1) && (pure ==> Pure(m.val, depth + 1)) && Stop(rest)
    ensures ReadField(MemberTo(m, rest), depth) == Done((Utf8.Sanitize(m.key), ValueOf(m.val)), rest)
    decreases if pure then 0 else 1, m, 1
  {
    KeyRoundTrip(m, rest);
    RoundTrip(m.val, depth + 1, rest, pure);
  }

  lemma KeyRoundTrip(m: Member, rest: bytes)
    requires NulFree(m.key)
    ensures ReadKey(MemberTo(m, rest)) == Done(Utf8.Sanitize(m.key), PrintTo(m.val, rest))
  {
    var val := PrintTo(m.val, rest);
    var after := [COLON] + val;
    assert [QUOTE, COLON] + val == [QUOTE] + after;
    StringRoundTrip(m.key, after);
    assert SkipSpace(MemberTo(m, rest)) == MemberTo(m, rest);
    assert SkipSpace(after) == after;
    assert after[1..] == val;
  }

  /** One turn of the object loop. */
  lemma {:induction false} FieldsStep(s: bytes, depth: nat, acc: seq<(bytes, Value)>,
                                      field: (bytes, Value), mark: byte, after: bytes)
    requires mark == COMMA || mark == RBRACE
    requires ReadField(s, depth) == Done(field, [mark] + after)
    ensures ReadFields(s, depth, acc)
         == if mark == COMMA then ReadFields(after, depth, acc + [field]) else Done(VObj(acc + [field]), after)
  {
    var t := [mark] + after;
    assert SkipSpace(t) == t;
    assert t[1..] == after;
  }

  lemma {:induction false} MembersRoundTrip(members: seq<Member>, depth: nat, rest: bytes,
                                            acc: seq<(bytes, Value)>, pure: bool)
    requires members != []
    requires forall i | 0 <= i < |members| ::
      NulFree(members[i].key) && DocOk(members[i].val, depth + 1) && (pure ==> Pure(members[i].val, depth + 1))
    ensures ReadFields(MembersTo(members, [RBRACE] + rest), depth, acc) == Done(VObj(acc + FieldsOf(members)), rest)
    decreases if pure then 0 else 1, members, 0
  {
    var m := members[0];
    var field := (Utf8.Sanitize(m.key), ValueOf(m.val));
    FieldsOfCons(members, acc);
    if |members| == 1 {
      MemberRoundTrip(m, depth, [RBRACE] + rest, pure);
      FieldsStep(MemberTo(m, [RBRACE] + rest), depth, acc, field, RBRACE, rest);
    } else {
      var more := MembersTo(members[1..], [RBRACE] + rest);
      MemberRoundTrip(m, depth, [COMMA] + more, pure);
      FieldsStep(MemberTo(m, [COMMA] + more), depth, acc, field, COMMA, more);
      MembersRoundTrip(members[1..], depth, rest, acc + [field], pure);
    }
  }

  lemma {:induction false} FieldsOfCons(members: seq<Member>, acc: seq<(bytes, Value)>)
    requires members != []
    ensures var field := (Utf8.Sanitize(members[0].key), ValueOf(members[0].val));
            && acc + FieldsOf(members) == (acc + [field]) + FieldsOf(members[1..])
            && (|members| == 1 ==> acc + FieldsOf(members) == acc + [field])
  {
    var field := (Utf8.Sanitize(members[0].key), ValueOf(members[0].val));
    assert FieldsOf(members) == [field] + FieldsOf(members[1..]);
  }

  /** Printing then parsing a whole document. */
  lemma {:induction false} ParsePrinted(d: Doc)
    requires DocOk(d, 0)
    ensures Parse(Print(d)) == Done(ValueOf(d), [])
  {
    RoundTrip(d, 0, [], false);
  }
}
