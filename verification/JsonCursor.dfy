/**
 The reader as it runs: a cursor moved over the text by loops and mutually
 recursive methods. Each one is proved against the reading functions.
 */
module JsonCursor {
  import opened Bytes
  import opened JsonText
  import opened JsonReader
  import Utf8

  method SkipSpaces(s: bytes, start: nat) returns (p: nat)
    requires start <= |s|
    ensures start <= p <= |s|
    ensures s[p..] == SkipSpace(s[start..])
  {
    p := start;
    while p < |s| && IsSpace(s[p])
      invariant start <= p <= |s|
      invariant SkipSpace(s[start..]) == SkipSpace(s[p..])
    {
      assert s[p..][1..] == s[p + 1..];
      p := p + 1;
    }
  }

  method ParseHex4(s: bytes, start: nat) returns (v: int)
    requires start + 4 <= |s|
    ensures v == Hex4(s[start..])
  {
    v := 0;
    var i := 0;
    ghost var t := s[start..];
    while i < 4
      invariant 0 <= i <= 4
      invariant i >= 1 ==> HexValue(t[0]) < 16
      invariant i >= 2 ==> HexValue(t[1]) < 16
      invariant i >= 3 ==> HexValue(t[2]) < 16
      invariant i >= 4 ==> HexValue(t[3]) < 16
      invariant i == 0 ==> v == 0
      invariant i == 1 ==> v == HexValue(t[0])
      invariant i == 2 ==> v == HexValue(t[0]) * 16 + HexValue(t[1])
      invariant i == 3 ==> v == (HexValue(t[0]) * 16 + HexValue(t[1])) * 16 + HexValue(t[2])
      invariant i == 4 ==> v == ((HexValue(t[0]) * 16 + HexValue(t[1])) * 16 + HexValue(t[2])) * 16 + HexValue(t[3])
    {
      var h := HexValue(s[start + i]);
      assert h == HexValue(t[i]);
      if h == 16 { return -1; }
      v := v * 16 + h;
      i := i + 1;
    }
  }

  /** The digits of a \u escape from start on: the code point and the place after it. */
  method ParseUnicode(s: bytes, start: nat) returns (ok: bool, cp: int, p: nat)
    requires start <= |s|
    ensures ok ==> start < p <= |s| && UnicodeEscape(s[start..]) == Done(cp, s[p..])
    ensures !ok ==> UnicodeEscape(s[start..]).Fail?
  {
    ok, cp, p := false, 0, start;
    ghost var t := s[start..];
    if start + 4 > |s| { return; }
    cp := ParseHex4(s, start);
    if cp < 0 { return; }
    p := start + 4;
    assert t[4..] == s[p..];
    if 0xD800 <= cp && cp <= 0xDBFF {
      if p + 6 > |s| || s[p] != BACKSLASH || s[p + 1] != 117 { return; }
      var lo := ParseHex4(s, p + 2);
      assert t[6..] == s[p + 2..];
      if lo < 0xDC00 || lo > 0xDFFF { return; }
      cp := 0x10000 + (cp - 0xD800) * 0x400 + (lo - 0xDC00);
      p := p + 6;
      assert t[10..] == s[p..];
      ok := true;
    } else {
      ok := cp != 0 && !(0xDC00 <= cp && cp <= 0xDFFF);
    }
  }

  /** One escape, from its backslash on. */
  method ParseEscape(s: bytes, start: nat, ghost acc: bytes) returns (ok: bool, piece: bytes, p: nat)
    requires start < |s| && s[start] == BACKSLASH
    ensures ok ==> start < p <= |s| && ReadString(s[start..], acc) == ReadString(s[p..], acc + piece)
    ensures !ok ==> ReadString(s[start..], acc).Fail?
  {
    ok, piece, p := false, [], start + 1;
    ghost var t := s[start..];
    if p >= |s| { return; }
    var b := ShortEscape(s[p]);
    assert t[2..] == s[p + 1..];
    if b >= 0 {
      return true, [b], p + 1;
    }
    if s[p] == 117 {
      var cp;
      ok, cp, p := ParseUnicode(s, p + 1);
      if ok {
        piece := Utf8.Encode(cp);
      }
    }
  }

  method ParseString(s: bytes, start: nat) returns (ok: bool, out: bytes, p: nat)
    requires start <= |s|
    ensures ok ==> start < p <= |s| && ReadQuoted(s[start..]) == Done(out, s[p..])
    ensures !ok ==> ReadQuoted(s[start..]).Fail?
  {
    ok, out, p := false, [], start;
    if p >= |s| || s[p] != QUOTE { return; }
    p := p + 1;
    assert s[start..][1..] == s[p..];
    ghost var want := ReadQuoted(s[start..]);
    while p < |s|
      invariant start < p <= |s|
      invariant !ok
      invariant want == ReadString(s[p..], out)
      decreases |s| - p
    {
      var ch := s[p];
      assert s[p..][1..] == s[p + 1..];
      if ch == QUOTE {
        ok := Utf8.CheckValid(out);
        p := p + 1;
        return;
      }
      if ch == BACKSLASH {
        var good, piece, next := ParseEscape(s, p, out);
        if !good { return; }
        out, p := out + piece, next;
      } else if ch >= 0x20 {
        out, p := out + [ch], p + 1;
      } else {
        return;
      }
    }
  }

  method SkipDigits(s: bytes, start: nat) returns (p: nat)
    requires start <= |s|
    ensures p == start + Span(s[start..])
    ensures p <= |s|
  {
    p := start;
    while p < |s| && IsDigit(s[p])
      invariant start <= p <= |s|
      invariant start + Span(s[start..]) == p + Span(s[p..])
    {
      assert s[p..][1..] == s[p + 1..];
      p := p + 1;
    }
  }

  lemma WholeAt(s: bytes, start: nat)
    requires start < |s| && IsDigit(s[start])
    ensures s[start] == 48 ==>
              SkipWhole(s[start..])
                == if start + 1 < |s| && IsDigit(s[start + 1]) then Fail else Done((), s[start + 1..])
    ensures s[start] != 48 ==>
              Span(s[start..]) > 0 && SkipWhole(s[start..]) == Done((), s[start + Span(s[start..])..])
  {
    var t := s[start..];
    assert t[1..] == s[start + 1..];
    assert t[Span(t)..] == s[start + Span(t)..];
  }

  method ParseWhole(s: bytes, start: nat) returns (ok: bool, p: nat)
    requires start <= |s|
    ensures ok ==> start < p <= |s| && SkipWhole(s[start..]) == Done((), s[p..])
    ensures !ok ==> SkipWhole(s[start..]).Fail?
  {
    p := start;
    if p >= |s| || !IsDigit(s[p]) { return false, p; }
    WholeAt(s, start);
    if s[p] == 48 {
      p := p + 1;
      if p < |s| && IsDigit(s[p]) { return false, p; }
    } else {
      p := SkipDigits(s, p);
    }
    return true, p;
  }

  method ParseFrac(s: bytes, start: nat) returns (ok: bool, p: nat)
    requires start <= |s|
    ensures ok ==> start <= p <= |s| && SkipFrac(s[start..]) == Done((), s[p..])
    ensures !ok ==> SkipFrac(s[start..]).Fail?
  {
    p := start;
    if p < |s| && s[p] == DOT {
      p := p + 1;
      assert s[start..][1..] == s[p..];
      if p >= |s| || !IsDigit(s[p]) { return false, p; }
      p := SkipDigits(s, p);
      assert s[start..][p - start..] == s[p..];
    }
    return true, p;
  }

  method ParseExp(s: bytes, start: nat) returns (ok: bool, p: nat)
    requires start <= |s|
    ensures ok ==> start <= p <= |s| && SkipExp(s[start..]) == Done((), s[p..])
    ensures !ok ==> SkipExp(s[start..]).Fail?
  {
    p := start;
    ghost var t := s[start..];
    if p < |s| && (s[p] == 101 || s[p] == 69) {
      p := p + 1;
      if p < |s| && (s[p] == PLUS || s[p] == MINUS) {
        p := p + 1;
      }
      assert t[p - start..] == s[p..];
      ghost var u := s[p..];
      if p >= |s| || !IsDigit(s[p]) { return false, p; }
      ghost var from := p;
      p := SkipDigits(s, p);
      assert u[p - from..] == s[p..];
    }
    return true, p;
  }

  method ParseUnsigned(s: bytes, start: nat) returns (ok: bool, p: nat)
    requires start <= |s|
    ensures ok ==> start < p <= |s| && SkipUnsigned(s[start..]) == Done((), s[p..])
    ensures !ok ==> SkipUnsigned(s[start..]).Fail?
  {
    ok, p := ParseWhole(s, start);
    if !ok { return; }
    ok, p := ParseFrac(s, p);
    if !ok { return; }
    ok, p := ParseExp(s, p);
  }

  method ParseNumber(s: bytes, start: nat) returns (ok: bool, text: bytes, p: nat)
    requires start <= |s|
    ensures ok ==> start < p <= |s| && ReadNumber(s[start..]) == Done(text, s[p..])
    ensures !ok ==> ReadNumber(s[start..]).Fail?
  {
    text, p := [], start;
    if p < |s| && s[p] == MINUS {
      p := p + 1;
      assert s[start..][1..] == s[p..];
    }
    ok, p := ParseUnsigned(s, p);
    if !ok { return; }
    text := s[start..p];
    assert text == s[start..][..|s[start..]| - |s[p..]|];
  }

  method ParseLiteral(s: bytes, start: nat) returns (ok: bool, v: Value, p: nat)
    requires start <= |s|
    ensures ok ==> start < p <= |s| && ReadLiteral(s[start..]) == Done(v, s[p..])
    ensures !ok ==> ReadLiteral(s[start..]).Fail?
  {
    var t := s[start..];
    ok, v, p := true, VNull, start;
    if TRUE_TEXT <= t {
      v, p := VBool(true), start + 4;
    } else if FALSE_TEXT <= t {
      v, p := VBool(false), start + 5;
    } else if NULL_TEXT <= t {
      p := start + 4;
    } else {
      ok := false;
    }
    assert t[p - start..] == s[p..];
  }

  method ParseValue(s: bytes, start: nat, depth: nat) returns (ok: bool, v: Value, p: nat)
    requires start <= |s|
    ensures ok ==> start < p <= |s| && ReadValue(s[start..], depth) == Done(v, s[p..])
    ensures !ok ==> ReadValue(s[start..], depth).Fail?
    decreases |s| - start, 1
  {
    ok, v := false, VNull;
    p := SkipSpaces(s, start);
    if p >= |s| || depth > MAX_DEPTH { return; }
    if s[p] == LBRACE {
      ok, v, p := ParseObject(s, p, depth);
    } else if s[p] == LBRACKET {
      ok, v, p := ParseArray(s, p, depth);
    } else if s[p] == QUOTE {
      var text;
      ok, text, p := ParseString(s, p);
      v := VStr(text);
    } else if s[p] == 116 || s[p] == 102 || s[p] == 110 {
      ok, v, p := ParseLiteral(s, p);
    } else if s[p] == MINUS || IsDigit(s[p]) {
      var text;
      ok, text, p := ParseNumber(s, p);
      v := VNum(text);
    }
  }

  /** One item and the separator after it; more says that another item must follow. */
  method ParseItem(s: bytes, start: nat, depth: nat, ghost acc: seq<Value>)
    returns (ok: bool, more: bool, item: Value, p: nat)
    requires start <= |s|
    ensures ok ==> start < p <= |s|
    ensures ok && more ==> ReadItems(s[start..], depth, acc) == ReadItems(s[p..], depth, acc + [item])
    ensures ok && !more ==> ReadItems(s[start..], depth, acc) == Done(VArr(acc + [item]), s[p..])
    ensures !ok ==> ReadItems(s[start..], depth, acc).Fail?
    decreases |s| - start, 2
  {
    more := false;
    ok, item, p := ParseValue(s, start, depth + 1);
    if !ok { return; }
    p := SkipSpaces(s, p);
    if p >= |s| { return false, more, item, p; }
    assert s[p..][1..] == s[p + 1..];
    more := s[p] == COMMA;
    ok := more || s[p] == RBRACKET;
    p := p + 1;
  }

  method ParseArray(s: bytes, start: nat, depth: nat) returns (ok: bool, v: Value, p: nat)
    requires start < |s| && s[start] == LBRACKET && depth <= MAX_DEPTH
    ensures ok ==> start < p <= |s| && ReadValue(s[start..], depth) == Done(v, s[p..])
    ensures !ok ==> ReadValue(s[start..], depth).Fail?
    decreases |s| - start, 0
  {
    ok, v := false, VNull;
    assert s[start..][1..] == s[start + 1..];
    p := SkipSpaces(s, start + 1);
    if p < |s| && s[p] == RBRACKET {
      assert s[p..][1..] == s[p + 1..];
      return true, VArr([]), p + 1;
    }
    var items: seq<Value> := [];
    ghost var want := ReadItems(s[p..], depth, items);
    assert ReadValue(s[start..], depth) == want;
    var more := true;
    while more
      invariant start < p <= |s|
      invariant more ==> want == ReadItems(s[p..], depth, items)
      invariant !more ==> want == Done(VArr(items), s[p..])
      decreases more, |s| - p
    {
      var good, item;
      good, more, item, p := ParseItem(s, p, depth, items);
      if !good { return; }
      items := items + [item];
    }
    return true, VArr(items), p;
  }

  method ParseKey(s: bytes, start: nat) returns (ok: bool, key: bytes, p: nat)
    requires start <= |s|
    ensures ok ==> start < p <= |s| && ReadKey(s[start..]) == Done(key, s[p..])
    ensures !ok ==> ReadKey(s[start..]).Fail?
  {
    p := SkipSpaces(s, start);
    ok, key, p := ParseString(s, p);
    if !ok { return; }
    p := SkipSpaces(s, p);
    if p >= |s| || s[p] != COLON { return false, key, p; }
    assert s[p..][1..] == s[p + 1..];
    p := p + 1;
  }

  method ParseField(s: bytes, start: nat, depth: nat) returns (ok: bool, field: (bytes, Value), p: nat)
    requires start <= |s|
    ensures ok ==> start < p <= |s| && ReadField(s[start..], depth) == Done(field, s[p..])
    ensures !ok ==> ReadField(s[start..], depth).Fail?
    decreases |s| - start, 2
  {
    field := ([], VNull);
    var key, val;
    ok, key, p := ParseKey(s, start);
    if !ok { return; }
    ok, val, p := ParseValue(s, p, depth + 1);
    field := (key, val);
  }

  method ParseMember(s: bytes, start: nat, depth: nat, ghost acc: seq<(bytes, Value)>)
    returns (ok: bool, more: bool, field: (bytes, Value), p: nat)
    requires start <= |s|
    ensures ok ==> start < p <= |s|
    ensures ok && more ==> ReadFields(s[start..], depth, acc) == ReadFields(s[p..], depth, acc + [field])
    ensures ok && !more ==> ReadFields(s[start..], depth, acc) == Done(VObj(acc + [field]), s[p..])
    ensures !ok ==> ReadFields(s[start..], depth, acc).Fail?
    decreases |s| - start, 3
  {
    more := false;
    ok, field, p := ParseField(s, start, depth);
    if !ok { return; }
    p := SkipSpaces(s, p);
    if p >= |s| { return false, more, field, p; }
    assert s[p..][1..] == s[p + 1..];
    more := s[p] == COMMA;
    ok := more || s[p] == RBRACE;
    p := p + 1;
  }

  method ParseObject(s: bytes, start: nat, depth: nat) returns (ok: bool, v: Value, p: nat)
    requires start < |s| && s[start] == LBRACE && depth <= MAX_DEPTH
    ensures ok ==> start < p <= |s| && ReadValue(s[start..], depth) == Done(v, s[p..])
    ensures !ok ==> ReadValue(s[start..], depth).Fail?
    decreases |s| - start, 0
  {
    ok, v := false, VNull;
    assert s[start..][1..] == s[start + 1..];
    p := SkipSpaces(s, start + 1);
    if p < |s| && s[p] == RBRACE {
      assert s[p..][1..] == s[p + 1..];
      return true, VObj([]), p + 1;
    }
    var fields: seq<(bytes, Value)> := [];
    ghost var want := ReadFields(s[p..], depth, fields);
    assert ReadValue(s[start..], depth) == want;
    var more := true;
    while more
      invariant start < p <= |s|
      invariant more ==> want == ReadFields(s[p..], depth, fields)
      invariant !more ==> want == Done(VObj(fields), s[p..])
      decreases more, |s| - p
    {
      var good, field;
      good, more, field, p := ParseMember(s, p, depth, fields);
      if !good { return; }
      fields := fields + [field];
    }
    return true, VObj(fields), p;
  }

  /** The entry point agrees with Parse on every text, accepted or not. */
  method ParseText(s: bytes) returns (ok: bool, v: Value)
    ensures ok ==> Parse(s) == Done(v, [])
    ensures !ok ==> Parse(s).Fail?
  {
    var p;
    assert s[0..] == s;
    ok, v, p := ParseValue(s, 0, 0);
    if ok {
      p := SkipSpaces(s, p);
      ok := p == |s|;
    }
  }
}
