/**
 The JSON writer: string escaping, and the compact documents that the
 serializer prints with it.
 */
module JsonText {
  import opened Bytes
  import Utf8

  // ---------------------------------------------------------------- strings

  function HexDigit(v: nat): byte
    requires v < 16
  {
    if v < 10 then 48 + v else 87 + v
  }

  /** What the writer prints for one ASCII byte. */
  function EscapeByte(c: byte): bytes
    requires c < 0x80
  {
    if c == QUOTE then [BACKSLASH, QUOTE]
    else if c == BACKSLASH then [BACKSLASH, BACKSLASH]
    else if c == 8 then [BACKSLASH, 98]
    else if c == 12 then [BACKSLASH, 102]
    else if c == LF then [BACKSLASH, 110]
    else if c == CR then [BACKSLASH, 114]
    else if c == TAB then [BACKSLASH, 116]
    else if c < 0x20 then [BACKSLASH, 117, 48, 48, HexDigit(c / 16), HexDigit(c % 16)]
    else [c]
  }

  /** The number of input bytes the writer takes at once. */
  function Width(s: bytes): (w: nat)
    requires s != []
    ensures 0 < w <= |s|
  {
    if s[0] >= 0x80 && Utf8.SeqLen(s) > 0 then Utf8.SeqLen(s) else 1
  }

  /** What the writer prints for them. */
  function Piece(s: bytes): bytes
    requires s != []
  {
    if s[0] < 0x80 then EscapeByte(s[0])
    else if Utf8.SeqLen(s) > 0 then s[..Utf8.SeqLen(s)]
    else Utf8.REPLACEMENT
  }

  /** What the writer prints between the quotes. */
  function Escape(s: bytes): bytes {
    if s == [] then [] else Piece(s) + Escape(s[Width(s)..])
  }

  function Quoted(s: bytes): bytes {
    [QUOTE] + Escape(s) + [QUOTE]
  }

  lemma {:induction false} EscapeStep(rest: bytes, done: bytes)
    requires rest != []
    ensures (done + Piece(rest)) + Escape(rest[Width(rest)..]) == done + Escape(rest)
  {
    ConcatAssoc(done, Piece(rest), Escape(rest[Width(rest)..]));
  }

  method NextPiece(rest: bytes) returns (piece: bytes, width: nat)
    requires rest != []
    ensures piece == Piece(rest) && width == Width(rest)
  {
    var c := rest[0];
    if c < 0x80 {
      return EscapeByte(c), 1;
    }
    var k := Utf8.SeqLen(rest);
    if k > 0 {
      return rest[..k], k;
    }
    return Utf8.REPLACEMENT, 1;
  }

  /** The writer's loop appends exactly the quoted, escaped string. */
  method AppendString(out: bytes, s: bytes) returns (r: bytes)
    ensures r == out + Quoted(s)
  {
    r := AppendEscaped(out + [QUOTE], s);
    ConcatAssoc(out, [QUOTE], Escape(s));
    ConcatAssoc(out, [QUOTE] + Escape(s), [QUOTE]);
    r := r + [QUOTE];
  }

  /** The rest is what lies between the index and the end. */
  method AppendEscaped(out: bytes, s: bytes) returns (r: bytes)
    ensures r == out + Escape(s)
  {
    r := out;
    var rest := s;
    while rest != []
      invariant r + Escape(rest) == out + Escape(s)
      decreases |rest|
    {
      EscapeStep(rest, r);
      var piece, width := NextPiece(rest);
      r, rest := r + piece, rest[width..];
    }
    assert r + [] == r;
  }

  predicate Printable(s: bytes) {
    forall i | 0 <= i < |s| :: s[i] >= 0x20
  }

  lemma {:induction false} EscapePrintable(s: bytes)
    ensures Printable(Escape(s))
    decreases |s|
  {
    if s != [] {
      EscapePrintable(s[Width(s)..]);
      assert Printable(Piece(s));
    }
  }

  // ---------------------------------------------------------------- numbers

  predicate Digits(s: bytes) {
    forall i | 0 <= i < |s| :: IsDigit(s[i])
  }

  /** A number by the grammar of section 6 of RFC 8259, in its four parts. */
  datatype Numeral = Numeral(neg: bool, whole: bytes, frac: bytes, mark: bytes, exp: bytes) {
    predicate Ok() {
      && Digits(whole) && |whole| > 0 && (whole[0] == 48 ==> |whole| == 1)
      && Digits(frac)
      && Digits(exp) && (exp == [] <==> mark == [])
      && |mark| <= 2
      && (|mark| > 0 ==> mark[0] == 101 || mark[0] == 69)
      && (|mark| > 1 ==> mark[1] == PLUS || mark[1] == MINUS)
    }

    function ExpTo(rest: bytes): bytes {
      mark + (exp + rest)
    }

    function FracTo(rest: bytes): bytes {
      if frac == [] then ExpTo(rest) else [DOT] + (frac + ExpTo(rest))
    }

    function PrintTo(rest: bytes): bytes {
      (if neg then [MINUS] else []) + (whole + FracTo(rest))
    }
  }

  // -------------------------------------------------------------- documents

  /** A compact document. Raw is a fragment serialized earlier and copied verbatim. */
  datatype Doc =
    | Null
    | Bool(b: bool)
    | Num(n: Numeral)
    | Str(s: bytes)
    | Arr(items: seq<Doc>)
    | Obj(members: seq<Member>)
    | Raw(text: bytes)

  datatype Member = Member(key: bytes, val: Doc)

  const TRUE_TEXT: bytes := [116, 114, 117, 101]
  const FALSE_TEXT: bytes := [102, 97, 108, 115, 101]
  const NULL_TEXT: bytes := [110, 117, 108, 108]

  /** The text of d followed by rest. */
  function PrintTo(d: Doc, rest: bytes): bytes
    decreases d, 1
  {
    match d
    case Null => NULL_TEXT + rest
    case Bool(b) => (if b then TRUE_TEXT else FALSE_TEXT) + rest
    case Num(n) => n.PrintTo(rest)
    case Str(s) => [QUOTE] + (Escape(s) + ([QUOTE] + rest))
    case Arr(items) => [LBRACKET] + ItemsTo(items, [RBRACKET] + rest)
    case Obj(members) => [LBRACE] + MembersTo(members, [RBRACE] + rest)
    case Raw(text) => text + rest
  }

  function ItemsTo(items: seq<Doc>, rest: bytes): bytes
    decreases items, 0
  {
    if items == [] then rest
    else PrintTo(items[0], (if |items| == 1 then rest else [COMMA] + ItemsTo(items[1..], rest)))
  }

  function MemberTo(m: Member, rest: bytes): bytes
    decreases m, 2
  {
    [QUOTE] + (Escape(m.key) + ([QUOTE, COLON] + PrintTo(m.val, rest)))
  }

  function MembersTo(members: seq<Member>, rest: bytes): bytes
    decreases members, 0
  {
    if members == [] then rest
    else MemberTo(members[0], (if |members| == 1 then rest else [COMMA] + MembersTo(members[1..], rest)))
  }

  function Print(d: Doc): bytes {
    PrintTo(d, [])
  }

  // The text of a document does not depend on what follows it.

  lemma NumeralAppend(n: Numeral, a: bytes, b: bytes)
    ensures n.PrintTo(a + b) == n.PrintTo(a) + b
  {
    assert n.ExpTo(a + b) == n.ExpTo(a) + b;
    assert n.FracTo(a + b) == n.FracTo(a) + b;
  }

  lemma {:induction false} PrintAppend(d: Doc, a: bytes, b: bytes)
    ensures PrintTo(d, a + b) == PrintTo(d, a) + b
    decreases d, 1
  {
    match d
    case Null =>
    case Bool(_) =>
    case Num(n) => NumeralAppend(n, a, b);
    case Str(s) =>
      assert [QUOTE] + (a + b) == ([QUOTE] + a) + b;
      assert Escape(s) + (([QUOTE] + a) + b) == (Escape(s) + ([QUOTE] + a)) + b;
    case Arr(items) =>
      ItemsAppend(items, [RBRACKET] + a, b);
      assert [RBRACKET] + (a + b) == [RBRACKET] + a + b;
    case Obj(members) =>
      MembersAppend(members, [RBRACE] + a, b);
      assert [RBRACE] + (a + b) == [RBRACE] + a + b;
    case Raw(text) =>
      assert text + (a + b) == (text + a) + b;
  }

  lemma {:induction false} ItemsAppend(items: seq<Doc>, a: bytes, b: bytes)
    ensures ItemsTo(items, a + b) == ItemsTo(items, a) + b
    decreases items, 0
  {
    if items != [] {
      if |items| == 1 {
        PrintAppend(items[0], a, b);
      } else {
        ItemsAppend(items[1..], a, b);
        assert [COMMA] + (ItemsTo(items[1..], a) + b) == [COMMA] + ItemsTo(items[1..], a) + b;
        PrintAppend(items[0], [COMMA] + ItemsTo(items[1..], a), b);
      }
    }
  }

  lemma {:induction false} MemberAppend(m: Member, a: bytes, b: bytes)
    ensures MemberTo(m, a + b) == MemberTo(m, a) + b
    decreases m, 2
  {
    PrintAppend(m.val, a, b);
    var p := PrintTo(m.val, a);
    assert [QUOTE, COLON] + (p + b) == ([QUOTE, COLON] + p) + b;
    assert Escape(m.key) + (([QUOTE, COLON] + p) + b) == (Escape(m.key) + ([QUOTE, COLON] + p)) + b;
  }

  lemma {:induction false} MembersAppend(members: seq<Member>, a: bytes, b: bytes)
    ensures MembersTo(members, a + b) == MembersTo(members, a) + b
    decreases members, 0
  {
    if members != [] {
      if |members| == 1 {
        MemberAppend(members[0], a, b);
      } else {
        MembersAppend(members[1..], a, b);
        assert [COMMA] + (MembersTo(members[1..], a) + b) == [COMMA] + MembersTo(members[1..], a) + b;
        MemberAppend(members[0], [COMMA] + MembersTo(members[1..], a), b);
      }
    }
  }

  /** Adding a member at the end adds a comma, unless it is the first, and the member. */
  lemma {:induction false} MembersSnoc(ms: seq<Member>, m: Member)
    ensures MembersTo(ms + [m], [])
         == MembersTo(ms, []) + (if ms == [] then [] else [COMMA]) + MemberTo(m, [])
  {
    if ms == [] {
      assert ms + [m] == [m];
    } else {
      var sep := [COMMA] + MemberTo(m, []);
      MembersSnocTo(ms, m);
      MembersAppend(ms, [], sep);
      assert [] + sep == sep;
    }
  }

  lemma {:induction false} MembersSnocTo(ms: seq<Member>, m: Member)
    requires ms != []
    ensures MembersTo(ms + [m], []) == MembersTo(ms, [COMMA] + MemberTo(m, []))
    decreases |ms|
  {
    assert (ms + [m])[1..] == ms[1..] + [m];
    assert (ms + [m])[0] == ms[0];
    if |ms| == 1 {
      assert ms[1..] + [m] == [m];
      assert MembersTo([m], []) == MemberTo(m, []);
    } else {
      MembersSnocTo(ms[1..], m);
    }
  }

  lemma {:induction false} ItemsSnoc(items: seq<Doc>, d: Doc)
    ensures ItemsTo(items + [d], [])
         == ItemsTo(items, []) + (if items == [] then [] else [COMMA]) + Print(d)
  {
    if items == [] {
      assert items + [d] == [d];
    } else {
      var sep := [COMMA] + Print(d);
      ItemsSnocTo(items, d);
      ItemsAppend(items, [], sep);
      assert [] + sep == sep;
    }
  }

  lemma {:induction false} ItemsSnocTo(items: seq<Doc>, d: Doc)
    requires items != []
    ensures ItemsTo(items + [d], []) == ItemsTo(items, [COMMA] + Print(d))
    decreases |items|
  {
    assert (items + [d])[1..] == items[1..] + [d];
    assert (items + [d])[0] == items[0];
    if |items| == 1 {
      assert items[1..] + [d] == [d];
      assert ItemsTo([d], []) == Print(d);
    } else {
      ItemsSnocTo(items[1..], d);
    }
  }
}
