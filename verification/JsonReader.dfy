/**
 The JSON reader as functions on the unread input, and the law that ties it to
 the writer: reading what the writer printed gives the printed document back,
 with malformed UTF-8 replaced.
 */
module JsonReader {
  import opened Bytes
  import opened JsonText
  import Utf8

  const MAX_DEPTH: nat := 128

  datatype Value =
    | VNull
    | VBool(b: bool)
    | VNum(text: bytes)
    | VStr(s: bytes)
    | VArr(items: seq<Value>)
    | VObj(fields: seq<(bytes, Value)>)

  /** A successful read carries its value and the unread rest. */
  datatype Read<+T> = Fail | Done(val: T, rest: bytes)

  predicate IsSpace(b: byte) {
    b == SPACE || b == TAB || b == LF || b == CR
  }

  function SkipSpace(s: bytes): (r: bytes)
    ensures |r| <= |s|
  {
    if s != [] && IsSpace(s[0]) then SkipSpace(s[1..]) else s
  }

  // ---------------------------------------------------------------- strings

  /** The value of four hexadecimal digits, or -1. */
  function Hex4(s: bytes): (v: int)
    ensures -1 <= v < 0x10000
  {
    if |s| < 4 || HexValue(s[0]) == 16 || HexValue(s[1]) == 16 || HexValue(s[2]) == 16 || HexValue(s[3]) == 16
    then -1
    else ((HexValue(s[0]) * 16 + HexValue(s[1])) * 16 + HexValue(s[2])) * 16 + HexValue(s[3])
  }

  /** The byte named by a one-letter escape, or -1. */
  function ShortEscape(c: byte): (v: int)
    ensures -1 <= v < 0x80
  {
    if c == QUOTE || c == BACKSLASH || c == 47 then c
    else if c == 98 then 8
    else if c == 102 then 12
    else if c == 110 then LF
    else if c == 114 then CR
    else if c == 116 then TAB
    else -1
  }

  /** The code point of the \u escape whose digits start s, with a surrogate pair joined. */
  function UnicodeEscape(s: bytes): (r: Read<int>)
    ensures r.Done? ==> |r.rest| < |s| && Utf8.IsScalar(r.val) && r.val != 0
  {
    var hi := Hex4(s);
    if hi < 0 then Fail
    else if 0xD800 <= hi <= 0xDBFF then
      var lo := if |s| >= 10 && s[4] == BACKSLASH && s[5] == 117 then Hex4(s[6..]) else -1;
      if 0xDC00 <= lo <= 0xDFFF
      then Done(0x10000 + (hi - 0xD800) * 0x400 + (lo - 0xDC00), s[10..])
      else Fail
    else if hi == 0 || 0xDC00 <= hi <= 0xDFFF then Fail
    else Done(hi, s[4..])
  }

  /** The rest of a string after its opening quote; acc holds what was read so far. */
  function ReadString(s: bytes, acc: bytes): (r: Read<bytes>)
    ensures r.Done? ==> |r.rest| < |s|
    decreases |s|
  {
    if s == [] then Fail
    else if s[0] == QUOTE then
      if Utf8.Valid(acc) then Done(acc, s[1..]) else Fail
    else if s[0] == BACKSLASH then
      if |s| < 2 then Fail
      else if ShortEscape(s[1]) >= 0 then ReadString(s[2..], acc + [ShortEscape(s[1])])
      else if s[1] == 117 then
        var u := UnicodeEscape(s[2..]);
        if u.Done? then ReadString(u.rest, acc + Utf8.Encode(u.val)) else Fail
      else Fail
    else if s[0] >= 0x20 then ReadString(s[1..], acc + [s[0]])
    else Fail
  }

  function ReadQuoted(s: bytes): (r: Read<bytes>)
    ensures r.Done? ==> |r.rest| < |s|
  {
    if s != [] && s[0] == QUOTE then ReadString(s[1..], []) else Fail
  }

  // ---------------------------------------------------------------- numbers

  /** How many digits start s. */
  function Span(s: bytes): (n: nat)
    ensures n <= |s|
  {
    if s != [] && IsDigit(s[0]) then 1 + Span(s[1..]) else 0
  }

  function SkipWhole(s: bytes): (r: Read<()>)
    ensures r.Done? ==> |r.rest| < |s|
  {
    if s == [] || !IsDigit(s[0]) then Fail
    else if s[0] == 48 then
      if |s| > 1 && IsDigit(s[1]) then Fail else Done((), s[1..])
    else Done((), s[Span(s)..])
  }

  function SkipFrac(s: bytes): (r: Read<()>)
    ensures r.Done? ==> |r.rest| <= |s|
  {
    if s == [] || s[0] != DOT then Done((), s)
    else
      var k := Span(s[1..]);
      if k == 0 then Fail else Done((), s[1 + k..])
  }

  function SkipExp(s: bytes): (r: Read<()>)
    ensures r.Done? ==> |r.rest| <= |s|
  {
    if s == [] || (s[0] != 101 && s[0] != 69) then Done((), s)
    else
      var t := if |s| > 1 && (s[1] == PLUS || s[1] == MINUS) then s[2..] else s[1..];
      var k := Span(t);
      if k == 0 then Fail else Done((), t[k..])
  }

  function SkipUnsigned(s: bytes): (r: Read<()>)
    ensures r.Done? ==> |r.rest| < |s|
  {
    var w := SkipWhole(s);
    if w.Fail? then Fail else
    var f := SkipFrac(w.rest);
    if f.Fail? then Fail else SkipExp(f.rest)
  }

  /** The text of a number; its floating-point value is not modelled. */
  function ReadNumber(s: bytes): (r: Read<bytes>)
    ensures r.Done? ==> |r.rest| < |s|
  {
    var u := SkipUnsigned(if s != [] && s[0] == MINUS then s[1..] else s);
    if u.Fail? then Fail else Done(s[..|s| - |u.rest|], u.rest)
  }

  // ----------------------------------------------------------------- values

  function ReadLiteral(s: bytes): (r: Read<Value>)
    ensures r.Done? ==> |r.rest| < |s|
  {
    if TRUE_TEXT <= s then Done(VBool(true), s[4..])
    else if FALSE_TEXT <= s then Done(VBool(false), s[5..])
    else if NULL_TEXT <= s then Done(VNull, s[4..])
    else Fail
  }

  /** A string, a literal or a number. */
  function ReadScalar(s: bytes): (r: Read<Value>)
    requires s != []
    ensures r.Done? ==> |r.rest| < |s|
  {
    if s[0] == QUOTE then
      var q := ReadQuoted(s);
      if q.Done? then Done(VStr(q.val), q.rest) else Fail
    else if s[0] == 116 || s[0] == 102 || s[0] == 110 then ReadLiteral(s)
    else if s[0] == MINUS || IsDigit(s[0]) then
      var n := ReadNumber(s);
      if n.Done? then Done(VNum(n.val), n.rest) else Fail
    else Fail
  }

  function ReadValue(input: bytes, depth: nat): (r: Read<Value>)
    ensures r.Done? ==> |r.rest| < |input|
    decreases |input|, 1
  {
    var s := SkipSpace(input);
    if s == [] || depth > MAX_DEPTH then Fail
    else if s[0] == LBRACE then
      var t := SkipSpace(s[1..]);
      if t != [] && t[0] == RBRACE then Done(VObj([]), t[1..]) else ReadFields(t, depth, [])
    else if s[0] == LBRACKET then
      var t := SkipSpace(s[1..]);
      if t != [] && t[0] == RBRACKET then Done(VArr([]), t[1..]) else ReadItems(t, depth, [])
    else ReadScalar(s)
  }

  /** The rest of an array, standing before its next item. */
  function ReadItems(s: bytes, depth: nat, acc: seq<Value>): (r: Read<Value>)
    ensures r.Done? ==> |r.rest| < |s|
    decreases |s|, 2
  {
    var item := ReadValue(s, depth + 1);
    if item.Fail? then Fail else
    var t := SkipSpace(item.rest);
    if t == [] then Fail
    else if t[0] == COMMA then ReadItems(t[1..], depth, acc + [item.val])
    else if t[0] == RBRACKET then Done(VArr(acc + [item.val]), t[1..])
    else Fail
  }

  /** A key and its colon. */
  function ReadKey(s: bytes): (r: Read<bytes>)
    ensures r.Done? ==> |r.rest| < |s|
  {
    var key := ReadQuoted(SkipSpace(s));
    if key.Fail? then Fail else
    var c := SkipSpace(key.rest);
    if c == [] || c[0] != COLON then Fail else Done(key.val, c[1..])
  }

  /** A key, its colon and its value. */
  function ReadField(s: bytes, depth: nat): (r: Read<(bytes, Value)>)
    ensures r.Done? ==> |r.rest| < |s|
    decreases |s|, 2
  {
    var key := ReadKey(s);
    if key.Fail? then Fail else
    var val := ReadValue(key.rest, depth + 1);
    if val.Fail? then Fail else Done((key.val, val.val), val.rest)
  }

  /** The rest of an object, standing before its next key. */
  function ReadFields(s: bytes, depth: nat, acc: seq<(bytes, Value)>): (r: Read<Value>)
    ensures r.Done? ==> |r.rest| < |s|
    decreases |s|, 3
  {
    var field := ReadField(s, depth);
    if field.Fail? then Fail else
    var t := SkipSpace(field.rest);
    if t == [] then Fail
    else if t[0] == COMMA then ReadFields(t[1..], depth, acc + [field.val])
    else if t[0] == RBRACE then Done(VObj(acc + [field.val]), t[1..])
    else Fail
  }

  /** A whole text: one value and nothing after it but white space. */
  function Parse(s: bytes): (r: Read<Value>) {
    var v := ReadValue(s, 0);
    if v.Done? && SkipSpace(v.rest) == [] then Done(v.val, []) else Fail
  }

  /** The first field of an object with the given key. */
  function Get(v: Value, key: bytes): (r: Read<Value>) {
    if v.VObj? then FieldOf(v.fields, key) else Fail
  }

  function FieldOf(fields: seq<(bytes, Value)>, key: bytes): (r: Read<Value>) {
    if fields == [] then Fail
    else if fields[0].0 == key then Done(fields[0].1, [])
    else FieldOf(fields[1..], key)
  }

  // ------------------------------------------------------------- round trip

  /** What the reader makes of a document. */
  function ValueOf(d: Doc): Value {
    match d
    case Null => VNull
    case Bool(b) => VBool(b)
    case Num(n) => VNum(n.PrintTo([]))
    case Str(s) => VStr(Utf8.Sanitize(s))
    case Arr(items) => VArr(ValuesOf(items))
    case Obj(members) => VObj(FieldsOf(members))
    case Raw(text) => match Parse(text) { case Done(v, _) => v case Fail => VNull }
  }

  function ValuesOf(items: seq<Doc>): (r: seq<Value>)
    ensures |r| == |items|
  {
    if items == [] then [] else [ValueOf(items[0])] + ValuesOf(items[1..])
  }

  function FieldsOf(members: seq<Member>): (r: seq<(bytes, Value)>)
    ensures |r| == |members|
  {
    if members == [] then []
    else [(Utf8.Sanitize(members[0].key), ValueOf(members[0].val))] + FieldsOf(members[1..])
  }

  /** Documents that stand in no need of a raw fragment, within the depth limit. */
  predicate Pure(d: Doc, depth: nat) {
    depth <= MAX_DEPTH &&
    match d
    case Null => true
    case Bool(_) => true
    case Num(n) => n.Ok()
    case Str(s) => NulFree(s)
    case Arr(items) => forall i | 0 <= i < |items| :: Pure(items[i], depth + 1)
    case Obj(members) =>
      forall i | 0 <= i < |members| :: NulFree(members[i].key) && Pure(members[i].val, depth + 1)
    case Raw(_) => false
  }

  /** A fragment that the writer could have printed from a document without raw parts. */
  ghost predicate WellFormedRaw(text: bytes, depth: nat) {
    exists d: Doc :: Pure(d, depth) && text == Print(d)
  }

  /** Documents the serializer may print at the given depth. */
  ghost predicate DocOk(d: Doc, depth: nat) {
    depth <= MAX_DEPTH &&
    match d
    case Null => true
    case Bool(_) => true
    case Num(n) => n.Ok()
    case Str(s) => NulFree(s)
    case Arr(items) => forall i | 0 <= i < |items| :: DocOk(items[i], depth + 1)
    case Obj(members) =>
      forall i | 0 <= i < |members| :: NulFree(members[i].key) && DocOk(members[i].val, depth + 1)
    case Raw(text) => WellFormedRaw(text, depth)
  }

  lemma {:induction false} PureIsOk(d: Doc, depth: nat)
    requires Pure(d, depth)
    ensures DocOk(d, depth)
    decreases d
  {
    match d
    case Arr(items) =>
      forall i | 0 <= i < |items| ensures DocOk(items[i], depth + 1) {
        PureIsOk(items[i], depth + 1);
      }
    case Obj(members) =>
      forall i | 0 <= i < |members| ensures DocOk(members[i].val, depth + 1) {
        PureIsOk(members[i].val, depth + 1);
      }
    case _ =>
  }

  lemma {:induction false} PureLower(d: Doc, depth: nat, lower: nat)
    requires Pure(d, depth) && lower <= depth
    ensures Pure(d, lower)
    decreases d
  {
    match d
    case Arr(items) =>
      forall i | 0 <= i < |items| ensures Pure(items[i], lower + 1) {
        PureLower(items[i], depth + 1, lower + 1);
      }
    case Obj(members) =>
      forall i | 0 <= i < |members| ensures NulFree(members[i].key) && Pure(members[i].val, lower + 1) {
        PureLower(members[i].val, depth + 1, lower + 1);
      }
    case _ =>
  }

  // Strings

  /** Bytes that are neither quote, backslash nor control are taken one for one. */
  lemma {:induction false} ReadPlainRun(w: bytes, t: bytes, acc: bytes)
    requires forall i | 0 <= i < |w| :: w[i] >= 0x20 && w[i] != QUOTE && w[i] != BACKSLASH
    ensures ReadString(w + t, acc) == ReadString(t, acc + w)
    decreases |w|
  {
    if w == [] {
      assert w + t == t;
      assert acc + w == acc;
    } else {
      assert (w + t)[1..] == w[1..] + t;
      ReadPlainRun(w[1..], t, acc + [w[0]]);
      assert acc + w == (acc + [w[0]]) + w[1..];
    }
  }

  lemma HexDigitInverse(v: nat)
    requires v < 16
    ensures HexValue(HexDigit(v)) == v
  {
  }

  lemma ReadEscapedByte(c: byte, t: bytes, acc: bytes)
    requires 0 < c < 0x80
    ensures ReadString(EscapeByte(c) + t, acc) == ReadString(t, acc + [c])
  {
    var e := EscapeByte(c);
    if |e| == 1 {
      assert (e + t)[1..] == t;
    } else if |e| == 2 {
      assert (e + t)[2..] == t;
    } else {
      HexDigitInverse(c / 16);
      HexDigitInverse(c % 16);
      var u := (e + t)[2..];
      assert u[0] == 48 && u[1] == 48 && u[2] == e[4] && u[3] == e[5];
      assert Hex4(u) == c;
      assert u[4..] == t;
    }
  }

  lemma AcceptedBytesHigh(s: bytes)
    requires s != [] && s[0] >= 0x80
    ensures forall i | 0 <= i < Utf8.SeqLen(s) :: s[i] >= 0x80
  {
  }

  lemma ReadPiece(s: bytes, t: bytes, acc: bytes)
    requires s != [] && NulFree(s)
    ensures ReadString(Piece(s) + t, acc)
         == ReadString(t, acc + (if Utf8.SeqLen(s) > 0 then s[..Utf8.SeqLen(s)] else Utf8.REPLACEMENT))
  {
    if s[0] < 0x80 {
      ReadEscapedByte(s[0], t, acc);
      assert s[..1] == [s[0]];
    } else {
      AcceptedBytesHigh(s);
      ReadPlainRun(Piece(s), t, acc);
    }
  }

  /** Reading an escaped string yields its sanitized bytes and goes on with what follows. */
  lemma {:induction false} ReadEscaped(s: bytes, t: bytes, acc: bytes)
    requires NulFree(s)
    ensures ReadString(Escape(s) + t, acc) == ReadString(t, acc + Utf8.Sanitize(s))
    decreases |s|
  {
    if s == [] {
      assert Escape(s) + t == t;
      assert acc + Utf8.Sanitize(s) == acc;
    } else {
      var w := Width(s);
      var clean := if Utf8.SeqLen(s) > 0 then s[..Utf8.SeqLen(s)] else Utf8.REPLACEMENT;
      ConcatAssoc(Piece(s), Escape(s[w..]), t);
      ReadPiece(s, Escape(s[w..]) + t, acc);
      ReadEscaped(s[w..], t, acc + clean);
      ConcatAssoc(acc, clean, Utf8.Sanitize(s[w..]));
      assert Utf8.Sanitize(s) == clean + Utf8.Sanitize(s[w..]);
    }
  }

  /** The string law: what the writer printed reads back as the sanitized string. */
  lemma StringRoundTrip(s: bytes, rest: bytes)
    requires NulFree(s)
    ensures ReadQuoted(Quoted(s) + rest) == Done(Utf8.Sanitize(s), rest)
    ensures ReadQuoted([QUOTE] + (Escape(s) + ([QUOTE] + rest))) == Done(Utf8.Sanitize(s), rest)
    ensures Utf8.Valid(s) ==> ReadQuoted(Quoted(s) + rest) == Done(s, rest)
  {
    var q := [QUOTE] + (Escape(s) + ([QUOTE] + rest));
    assert Quoted(s) + rest == q;
    assert q[1..] == Escape(s) + ([QUOTE] + rest);
    ReadEscaped(s, [QUOTE] + rest, []);
    Utf8.SanitizeIsValid(s);
    assert [] + Utf8.Sanitize(s) == Utf8.Sanitize(s);
    assert ([QUOTE] + rest)[1..] == rest;
  }

  lemma NulFails(t: bytes, acc: bytes)
    ensures ReadString(EscapeByte(NUL) + t, acc) == Fail
  {
    var u := (EscapeByte(NUL) + t)[2..];
    assert u[0] == 48 && u[1] == 48 && u[2] == 48 && u[3] == 48;
    assert Hex4(u) == 0;
  }

  lemma {:induction false} NulAnywhereFails(s: bytes, t: bytes, acc: bytes)
    requires !NulFree(s)
    ensures ReadString(Escape(s) + t, acc) == Fail
    decreases |s|
  {
    var w := Width(s);
    ConcatAssoc(Piece(s), Escape(s[w..]), t);
    if s[0] == NUL {
      NulFails(Escape(s[w..]) + t, acc);
    } else {
      var head := s[..w];
      if s[0] >= 0x80 {
        AcceptedBytesHigh(s);
      }
      assert NulFree(head);
      assert !NulFree(s[w..]) by {
        assert s == head + s[w..];
      }
      var clean := if Utf8.SeqLen(head) > 0 then head[..Utf8.SeqLen(head)] else Utf8.REPLACEMENT;
      assert Piece(head) == Piece(s);
      ReadPiece(head, Escape(s[w..]) + t, acc);
      NulAnywhereFails(s[w..], t, acc + clean);
    }
  }

  /** The writer prints a NUL byte as an escape the reader refuses, so the
      reader accepts a printed string exactly when it holds no NUL. */
  lemma StringReadableIffNulFree(s: bytes, rest: bytes)
    ensures ReadQuoted(Quoted(s) + rest).Done? <==> NulFree(s)
  {
    if NulFree(s) {
      StringRoundTrip(s, rest);
    } else {
      var q := Quoted(s) + rest;
      assert q[1..] == Escape(s) + ([QUOTE] + rest);
      NulAnywhereFails(s, [QUOTE] + rest, []);
    }
  }
}
