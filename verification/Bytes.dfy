/** Bytes and the ASCII constants that the wire formats are made of. */
module Bytes {

  type byte = b: int | 0 <= b < 256

  type bytes = seq<byte>

  const NUL: byte := 0
  const TAB: byte := 9
  const LF: byte := 10
  const CR: byte := 13
  const SPACE: byte := 32
  const QUOTE: byte := 34
  const PLUS: byte := 43
  const COMMA: byte := 44
  const MINUS: byte := 45
  const DOT: byte := 46
  const COLON: byte := 58
  const LBRACKET: byte := 91
  const BACKSLASH: byte := 92
  const RBRACKET: byte := 93
  const LBRACE: byte := 123
  const RBRACE: byte := 125

  /** The bytes of an ASCII literal. */
  function Text(s: string): (t: bytes)
    requires forall i | 0 <= i < |s| :: 0 < s[i] as int < 128
    ensures |t| == |s| && NulFree(t) && forall i | 0 <= i < |t| :: t[i] < 128
  {
    seq(|s|, i requires 0 <= i < |s| => s[i] as int)
  }

  lemma ConcatAssoc<T>(a: seq<T>, b: seq<T>, c: seq<T>)
    ensures (a + b) + c == a + (b + c)
  {
  }

  predicate NulFree(s: bytes) {
    forall i | 0 <= i < |s| :: s[i] != NUL
  }

  predicate IsDigit(b: byte) {
    48 <= b <= 57
  }

  /** The value of a hexadecimal digit, or 16 for any other byte. */
  function HexValue(b: byte): (v: nat)
    ensures v <= 16
  {
    if 48 <= b <= 57 then b - 48
    else if 97 <= b <= 102 then b - 87
    else if 65 <= b <= 70 then b - 55
    else 16
  }
}
