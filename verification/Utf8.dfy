/**
 UTF-8 as the JSON writer and the JSON reader see it. The writer asks for the
 length of the sequence at the front of its input, the reader checks a whole
 string, and the reader also encodes code points. All three are tied to the
 scalar values of section 4 of RFC 3629.
 */
module Utf8 {
  import opened Bytes

  predicate Cont(b: byte) {
    0x80 <= b <= 0xBF
  }

  /** Length of the well-formed sequence at the front of s; 0 when there is none. */
  function SeqLen(s: bytes): (k: nat)
    ensures k <= 4 && k <= |s|
  {
    if |s| == 0 then 0
    else
      var c := s[0];
      if c < 0x80 then 1
      else if 0xC2 <= c <= 0xDF then
        if |s| >= 2 && Cont(s[1]) then 2 else 0
      else if 0xE0 <= c <= 0xEF then
        if |s| < 3 || !Cont(s[2]) then 0
        else if c == 0xE0 then (if 0xA0 <= s[1] <= 0xBF then 3 else 0)
        else if c == 0xED then (if 0x80 <= s[1] <= 0x9F then 3 else 0)
        else if Cont(s[1]) then 3 else 0
      else if 0xF0 <= c <= 0xF4 then
        if |s| < 4 || !Cont(s[2]) || !Cont(s[3]) then 0
        else if c == 0xF0 then (if 0x90 <= s[1] <= 0xBF then 4 else 0)
        else if c == 0xF4 then (if 0x80 <= s[1] <= 0x8F then 4 else 0)
        else if Cont(s[1]) then 4 else 0
      else 0
  }

  predicate IsScalar(cp: int) {
    0 <= cp < 0xD800 || 0xE000 <= cp <= 0x10FFFF
  }

  /** The reader's encoder. */
  function Encode(cp: int): (e: bytes)
    requires 0 <= cp <= 0x10FFFF
    ensures 1 <= |e| <= 4
  {
    if cp < 0x80 then [cp]
    else if cp < 0x800 then [0xC0 + cp / 0x40, 0x80 + cp % 0x40]
    else if cp < 0x10000 then [0xE0 + cp / 0x1000, 0x80 + cp / 0x40 % 0x40, 0x80 + cp % 0x40]
    else [0xF0 + cp / 0x40000, 0x80 + cp / 0x1000 % 0x40, 0x80 + cp / 0x40 % 0x40, 0x80 + cp % 0x40]
  }

  function Bits(b: int): int {
    b - 0x80
  }

  /** The code point spelled by a sequence of one to four bytes. */
  function Decode(e: bytes): (cp: int)
    requires 1 <= |e| <= 4
  {
    var lead: int := e[0];
    if |e| == 1 then lead
    else if |e| == 2 then (lead - 0xC0) * 0x40 + Bits(e[1])
    else if |e| == 3 then (lead - 0xE0) * 0x1000 + Bits(e[1]) * 0x40 + Bits(e[2])
    else (lead - 0xF0) * 0x40000 + Bits(e[1]) * 0x1000 + Bits(e[2]) * 0x40 + Bits(e[3])
  }

  lemma ThreeBytes(a: int, b: int, c: int)
    requires 0 <= a < 0x10 && 0 <= b < 0x40 && 0 <= c < 0x40
    ensures var cp := a * 0x1000 + b * 0x40 + c;
            cp / 0x1000 == a && cp / 0x40 % 0x40 == b && cp % 0x40 == c
  {
    var cp := a * 0x1000 + b * 0x40 + c;
    assert cp / 0x40 == a * 0x40 + b;
  }

  lemma FourBytes(a: int, b: int, c: int, d: int)
    requires 0 <= a < 8 && 0 <= b < 0x40 && 0 <= c < 0x40 && 0 <= d < 0x40
    ensures var cp := a * 0x40000 + b * 0x1000 + c * 0x40 + d;
            cp / 0x40000 == a && cp / 0x1000 % 0x40 == b && cp / 0x40 % 0x40 == c && cp % 0x40 == d
  {
    var cp := a * 0x40000 + b * 0x1000 + c * 0x40 + d;
    assert cp / 0x40 == a * 0x1000 + b * 0x40 + c;
    assert cp / 0x1000 == a * 0x40 + b;
  }

  /** Every sequence the writer accepts is the shortest encoding of a scalar value. */
  lemma AcceptedIsEncoding(s: bytes)
    requires SeqLen(s) > 0
    ensures IsScalar(Decode(s[..SeqLen(s)]))
    ensures Encode(Decode(s[..SeqLen(s)])) == s[..SeqLen(s)]
  {
    var k := SeqLen(s);
    var e := s[..k];
    var lead: int := e[0];
    if k == 2 {
      assert Decode(e) == (lead - 0xC0) * 0x40 + Bits(e[1]);
      assert Decode(e) / 0x40 == lead - 0xC0;
    } else if k == 3 {
      ThreeBytes(lead - 0xE0, Bits(e[1]), Bits(e[2]));
    } else if k == 4 {
      FourBytes(lead - 0xF0, Bits(e[1]), Bits(e[2]), Bits(e[3]));
    }
  }

  lemma SplitCodePoint(cp: int)
    requires 0 <= cp <= 0x10FFFF
    ensures cp == cp / 0x1000 * 0x1000 + cp / 0x40 % 0x40 * 0x40 + cp % 0x40
    ensures cp / 0x1000 == cp / 0x40000 * 0x40 + cp / 0x1000 % 0x40
    ensures cp / 0x40 / 0x40 == cp / 0x1000
  {
    assert cp == cp / 0x40 * 0x40 + cp % 0x40;
    assert cp / 0x40 == cp / 0x1000 * 0x40 + cp / 0x40 % 0x40;
  }

  /** Every scalar value's encoding is accepted, whatever follows it. */
  lemma EncodingIsAccepted(cp: int, rest: bytes)
    requires IsScalar(cp)
    ensures SeqLen(Encode(cp) + rest) == |Encode(cp)|
    ensures Decode(Encode(cp)) == cp
  {
    var e := Encode(cp);
    SplitCodePoint(cp);
    assert forall i | 0 <= i < |e| :: (e + rest)[i] == e[i];
  }

  /** A string is valid when it is a concatenation of accepted sequences. */
  predicate Valid(s: bytes) {
    s == [] || (SeqLen(s) > 0 && Valid(s[SeqLen(s)..]))
  }

  const REPLACEMENT: bytes := [0xEF, 0xBF, 0xBD]

  /** s with each byte that starts no accepted sequence replaced by U+FFFD. */
  function Sanitize(s: bytes): bytes {
    if s == [] then []
    else if SeqLen(s) > 0 then s[..SeqLen(s)] + Sanitize(s[SeqLen(s)..])
    else REPLACEMENT + Sanitize(s[1..])
  }

  lemma SeqLenPrefix(w: bytes, t: bytes)
    requires w != [] && SeqLen(w) == |w|
    ensures SeqLen(w + t) == |w|
  {
  }

  lemma ValidCons(w: bytes, t: bytes)
    requires w != [] && SeqLen(w) == |w|
    ensures Valid(w + t) == Valid(t)
  {
    SeqLenPrefix(w, t);
    assert (w + t)[|w|..] == t;
  }

  /** Sanitizing always gives valid UTF-8, and changes exactly the invalid strings. */
  lemma {:induction false} SanitizeIsValid(s: bytes)
    ensures Valid(Sanitize(s))
    ensures Sanitize(s) == s <==> Valid(s)
    decreases |s|
  {
    if s != [] {
      var k := SeqLen(s);
      if k > 0 {
        SanitizeIsValid(s[k..]);
        assert SeqLen(s[..k]) == k;
        ValidCons(s[..k], Sanitize(s[k..]));
        assert s == s[..k] + s[k..];
        assert Sanitize(s)[k..] == Sanitize(s[k..]);
      } else {
        SanitizeIsValid(s[1..]);
        assert SeqLen(REPLACEMENT) == 3;
        ValidCons(REPLACEMENT, Sanitize(s[1..]));
      }
    }
  }

  /** The reader's whole-string check, with its own case analysis. */
  method CheckValid(s: bytes) returns (ok: bool)
    ensures ok == Valid(s)
  {
    var i := 0;
    while i < |s|
      invariant 0 <= i <= |s|
      invariant Valid(s) == Valid(s[i..])
      decreases |s| - i
    {
      var c := s[i];
      ghost var t := s[i..];
      if c < 0x80 {
        i := i + 1;
        assert t[1..] == s[i..];
      } else if 0xC2 <= c && c <= 0xDF {
        if i + 1 >= |s| || !Cont(s[i + 1]) { return false; }
        i := i + 2;
        assert t[2..] == s[i..];
      } else if 0xE0 <= c && c <= 0xEF {
        if i + 2 >= |s| || !Cont(s[i + 2]) { return false; }
        if c == 0xE0 {
          if s[i + 1] < 0xA0 || s[i + 1] > 0xBF { return false; }
        } else if c == 0xED {
          if s[i + 1] < 0x80 || s[i + 1] > 0x9F { return false; }
        } else if !Cont(s[i + 1]) {
          return false;
        }
        i := i + 3;
        assert t[3..] == s[i..];
      } else if 0xF0 <= c && c <= 0xF4 {
        if i + 3 >= |s| || !Cont(s[i + 2]) || !Cont(s[i + 3]) { return false; }
        if c == 0xF0 {
          if s[i + 1] < 0x90 || s[i + 1] > 0xBF { return false; }
        } else if c == 0xF4 {
          if s[i + 1] < 0x80 || s[i + 1] > 0x8F { return false; }
        } else if !Cont(s[i + 1]) {
          return false;
        }
        i := i + 4;
        assert t[4..] == s[i..];
      } else {
        return false;
      }
    }
    return true;
  }
}
