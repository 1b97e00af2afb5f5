/**
 The two decoders of HTTP chunked bodies (section 7.1 of RFC 9112): the strict
 one, which frames and decodes a whole body, and the lenient one, which copies
 a bounded prefix.
 */
module Chunked {
  import opened Bytes
  import opened Options

  const SIZE_MAX: nat := 0xFFFF_FFFF_FFFF_FFFF

  /** The strict decoder's answer. On errors the copied bytes are what already lies in the buffer. */
  datatype Result =
    | NeedMore
    | Malformed(copied: bytes)
    | TooBig(copied: bytes)
    | Complete(content: bytes, rest: bytes)

  datatype Hex = Overflow | Digits(value: nat, any: bool, rest: bytes)

  /** Leading hexadecimal digits, refused when the length would not fit a size. */
  function ReadHex(s: bytes, value: nat, any: bool): (h: Hex)
    ensures h.Digits? ==> |h.rest| <= |s| && (h.rest == [] || HexValue(h.rest[0]) == 16)
    ensures h.Digits? && h.any && !any ==> |h.rest| < |s|
    decreases |s|
  {
    if s == [] || HexValue(s[0]) == 16 then Digits(value, any, s)
    else if value > (SIZE_MAX - HexValue(s[0])) / 16 then Overflow
    else ReadHex(s[1..], value * 16 + HexValue(s[0]), true)
  }

  function ToLineEnd(s: bytes): (r: bytes)
    ensures |r| <= |s| && (r == [] || r[0] == CR || r[0] == LF)
  {
    if s == [] || s[0] == CR || s[0] == LF then s else ToLineEnd(s[1..])
  }

  datatype Line = Short | Bad | Line(after: bytes)

  /** The end of a line that must close with CR LF. */
  function EndLine(r: bytes): (l: Line)
    ensures l.Line? ==> |l.after| + 2 == |r|
  {
    if |r| < 2 then Short else if r[0] != CR || r[1] != LF then Bad else Line(r[2..])
  }

  /** Trailer fields up to their closing blank line. */
  function Trailers(s: bytes, copied: bytes): (r: Result)
    decreases |s|
  {
    var t := ToLineEnd(s);
    match EndLine(t)
    case Short => NeedMore
    case Bad => Malformed(copied)
    case Line(after) => if |t| == |s| then Complete(copied, after) else Trailers(after, copied)
  }

  /** A chunk of n bytes does not fit behind the copied ones in a buffer that keeps a final NUL. */
  predicate Overfull(cap: Option<nat>, copied: nat, n: nat) {
    cap.Some? && (cap.value == 0 || copied >= cap.value || n >= cap.value - copied)
  }

  /** The strict decoder; no cap means that only the framing is checked. */
  function Strict(s: bytes, cap: Option<nat>, copied: bytes): (r: Result)
    decreases |s|
  {
    match ReadHex(s, 0, false)
    case Overflow => Malformed(copied)
    case Digits(n, any, rest) =>
      if !any then (if rest == [] then NeedMore else Malformed(copied))
      else
        match EndLine(ToLineEnd(rest))
        case Short => NeedMore
        case Bad => Malformed(copied)
        case Line(data) => Data(data, n, cap, copied)
  }

  /** What follows a size line: the trailers after a zero size, else the chunk and its line end. */
  function Data(data: bytes, n: nat, cap: Option<nat>, copied: bytes): (r: Result)
    decreases |data|
  {
    if n == 0 then Trailers(data, copied)
    else if n > |data| then NeedMore
    else if n > SIZE_MAX - |copied| then Malformed(copied)
    else if Overfull(cap, |copied|, n) then TooBig(copied)
    else
      match EndLine(data[n..])
      case Short => NeedMore
      case Bad => Malformed(copied + data[..n])
      case Line(next) => Strict(next, cap, copied + data[..n])
  }

  // ------------------------------------------------- reading on changes nothing

  /** The answer for the same bytes followed by more. */
  function Extended(r: Result, more: bytes): Result {
    if r.Complete? then Complete(r.content, r.rest + more) else r
  }

  lemma {:induction false} ReadHexMore(s: bytes, value: nat, any: bool, more: bytes)
    ensures var h := ReadHex(s, value, any);
            && (h.Overflow? ==> ReadHex(s + more, value, any).Overflow?)
            && (h.Digits? && h.rest != [] ==> ReadHex(s + more, value, any) == Digits(h.value, h.any, h.rest + more))
    decreases |s|
  {
    if s != [] {
      assert (s + more)[0] == s[0] && (s + more)[1..] == s[1..] + more;
      if HexValue(s[0]) != 16 && value <= (SIZE_MAX - HexValue(s[0])) / 16 {
        ReadHexMore(s[1..], value * 16 + HexValue(s[0]), true, more);
      }
    }
  }

  lemma {:induction false} ToLineEndMore(s: bytes, more: bytes)
    requires ToLineEnd(s) != []
    ensures ToLineEnd(s + more) == ToLineEnd(s) + more
    decreases |s|
  {
    assert (s + more)[0] == s[0] && (s + more)[1..] == s[1..] + more;
    if s[0] != CR && s[0] != LF {
      ToLineEndMore(s[1..], more);
    }
  }

  lemma EndLineMore(r: bytes, more: bytes)
    requires !EndLine(r).Short?
    ensures EndLine(r).Bad? ==> EndLine(r + more).Bad?
    ensures EndLine(r).Line? ==> EndLine(r + more) == Line(EndLine(r).after + more)
  {
    if EndLine(r).Line? {
      assert (r + more)[2..] == r[2..] + more;
    }
  }

  lemma {:induction false} TrailersMore(s: bytes, copied: bytes, more: bytes)
    requires !Trailers(s, copied).NeedMore?
    ensures Trailers(s + more, copied) == Extended(Trailers(s, copied), more)
    decreases |s|
  {
    var t := ToLineEnd(s);
    ToLineEndMore(s, more);
    EndLineMore(t, more);
    if EndLine(t).Line? && |t| != |s| {
      TrailersMore(EndLine(t).after, copied, more);
    }
  }

  /** Once the strict decoder has an answer, further bytes never change it. */
  lemma {:induction false} StrictMore(s: bytes, cap: Option<nat>, copied: bytes, more: bytes)
    requires !Strict(s, cap, copied).NeedMore?
    ensures Strict(s + more, cap, copied) == Extended(Strict(s, cap, copied), more)
    decreases |s|
  {
    var h := ReadHex(s, 0, false);
    ReadHexMore(s, 0, false, more);
    if h.Digits? && h.any {
      var line := ToLineEnd(h.rest);
      ToLineEndMore(h.rest, more);
      EndLineMore(line, more);
      if EndLine(line).Line? {
        StrictDataMore(EndLine(line).after, h.value, cap, copied, more);
      }
    }
  }

  lemma {:induction false} StrictDataMore(data: bytes, n: nat, cap: Option<nat>, copied: bytes, more: bytes)
    requires !Data(data, n, cap, copied).NeedMore?
    ensures Data(data + more, n, cap, copied) == Extended(Data(data, n, cap, copied), more)
    decreases |data|, 0
  {
    if n == 0 {
      TrailersMore(data, copied, more);
    } else if n <= |data| {
      assert (data + more)[..n] == data[..n] && (data + more)[n..] == data[n..] + more;
      if n <= SIZE_MAX - |copied| && !Overfull(cap, |copied|, n) {
        EndLineMore(data[n..], more);
        if EndLine(data[n..]).Line? {
          StrictMore(EndLine(data[n..]).after, cap, copied + data[..n], more);
        }
      }
    }
  }

  /** A buffer changes the framing's answer only to "too big". */
  lemma {:induction false} CapOnlyOverfills(s: bytes, cap: nat, copied: bytes)
    ensures var r := Strict(s, Some(cap), copied);
            r.TooBig? || r == Strict(s, None, copied)
    decreases |s|
  {
    var h := ReadHex(s, 0, false);
    if h.Digits? && h.any && EndLine(ToLineEnd(h.rest)).Line? {
      var data := EndLine(ToLineEnd(h.rest)).after;
      var n := h.value;
      if 0 < n <= |data| && EndLine(data[n..]).Line? {
        CapOnlyOverfills(EndLine(data[n..]).after, cap, copied + data[..n]);
      }
    }
  }

  // --------------------------------------------------------------- encodings

  datatype Chunk = Chunk(size: bytes, ext: bytes, data: bytes)

  predicate HexText(t: bytes) {
    forall i | 0 <= i < |t| :: HexValue(t[i]) < 16
  }

  function HexDenotes(t: bytes, value: nat): nat
    requires HexText(t)
  {
    if t == [] then value else HexDenotes(t[1..], value * 16 + HexValue(t[0]))
  }

  predicate NoLineEnd(t: bytes) {
    forall i | 0 <= i < |t| :: t[i] != CR && t[i] != LF
  }

  /** A size line: any spelling of the length, then an extension that does not run on from it. */
  predicate SizeLineOk(size: bytes, ext: bytes, n: nat) {
    && size != [] && HexText(size) && HexDenotes(size, 0) == n
    && NoLineEnd(ext) && (ext == [] || HexValue(ext[0]) == 16)
  }

  predicate ChunkOk(c: Chunk) {
    c.data != [] && SizeLineOk(c.size, c.ext, |c.data|)
  }

  const CRLF: bytes := [CR, LF]

  function TrailersTo(fields: seq<bytes>, rest: bytes): bytes {
    if fields == [] then CRLF + rest else fields[0] + (CRLF + TrailersTo(fields[1..], rest))
  }

  function SizeLineTo(size: bytes, ext: bytes, rest: bytes): bytes {
    size + (ext + (CRLF + rest))
  }

  /** The encoding of the chunks, a last chunk and trailer fields, followed by rest. */
  function EncodeTo(cs: seq<Chunk>, last: Chunk, fields: seq<bytes>, rest: bytes): bytes {
    if cs == [] then SizeLineTo(last.size, last.ext, TrailersTo(fields, rest))
    else SizeLineTo(cs[0].size, cs[0].ext, cs[0].data + (CRLF + EncodeTo(cs[1..], last, fields, rest)))
  }

  function Content(cs: seq<Chunk>): bytes {
    if cs == [] then [] else cs[0].data + Content(cs[1..])
  }

  predicate EncodingOk(cs: seq<Chunk>, last: Chunk, fields: seq<bytes>) {
    && (forall i | 0 <= i < |cs| :: ChunkOk(cs[i]))
    && SizeLineOk(last.size, last.ext, 0)
    && (forall i | 0 <= i < |fields| :: fields[i] != [] && NoLineEnd(fields[i]))
    && |Content(cs)| <= SIZE_MAX
  }

  lemma {:induction false} HexDenotesGrows(t: bytes, value: nat)
    requires HexText(t)
    ensures HexDenotes(t, value) >= value
    decreases |t|
  {
    if t != [] {
      HexDenotesGrows(t[1..], value * 16 + HexValue(t[0]));
    }
  }

  lemma {:induction false} ReadHexText(t: bytes, value: nat, any: bool, after: bytes)
    requires HexText(t) && HexDenotes(t, value) <= SIZE_MAX
    requires after == [] || HexValue(after[0]) == 16
    ensures ReadHex(t + after, value, any) == Digits(HexDenotes(t, value), any || t != [], after)
    decreases |t|
  {
    if t == [] {
      assert t + after == after;
    } else {
      var v := value * 16 + HexValue(t[0]);
      HexDenotesGrows(t[1..], v);
      assert (t + after)[1..] == t[1..] + after;
      ReadHexText(t[1..], v, true, after);
    }
  }

  lemma {:induction false} ToLineEndText(t: bytes, after: bytes)
    requires NoLineEnd(t) && after != [] && after[0] == CR
    ensures ToLineEnd(t + after) == after
    decreases |t|
  {
    if t == [] {
      assert t + after == after;
    } else {
      assert (t + after)[1..] == t[1..] + after;
      ToLineEndText(t[1..], after);
    }
  }

  lemma SizeLine(size: bytes, ext: bytes, n: nat, rest: bytes)
    requires SizeLineOk(size, ext, n) && n <= SIZE_MAX
    ensures ReadHex(SizeLineTo(size, ext, rest), 0, false) == Digits(n, true, ext + (CRLF + rest))
    ensures EndLine(ToLineEnd(ext + (CRLF + rest))) == Line(rest)
  {
    var tail := CRLF + rest;
    assert tail[0] == CR && tail[1] == LF && tail[2..] == rest;
    assert (ext + tail)[0] == if ext == [] then CR else ext[0];
    ReadHexText(size, 0, false, ext + tail);
    ToLineEndText(ext, tail);
  }

  lemma {:induction false} TrailersDecode(fields: seq<bytes>, copied: bytes, rest: bytes)
    requires forall i | 0 <= i < |fields| :: fields[i] != [] && NoLineEnd(fields[i])
    ensures Trailers(TrailersTo(fields, rest), copied) == Complete(copied, rest)
    decreases |fields|
  {
    var s := TrailersTo(fields, rest);
    if fields == [] {
      assert s[2..] == rest;
    } else {
      var tail := CRLF + TrailersTo(fields[1..], rest);
      assert tail[2..] == TrailersTo(fields[1..], rest);
      ToLineEndText(fields[0], tail);
      TrailersDecode(fields[1..], copied, rest);
    }
  }

  /** One encoded chunk, with anything behind it. */
  lemma ChunkDecodes(c: Chunk, next: bytes, cap: Option<nat>, copied: bytes)
    requires ChunkOk(c) && |copied| + |c.data| <= SIZE_MAX
    ensures Strict(SizeLineTo(c.size, c.ext, c.data + (CRLF + next)), cap, copied)
         == if Overfull(cap, |copied|, |c.data|) then TooBig(copied) else Strict(next, cap, copied + c.data)
  {
    var data := c.data + (CRLF + next);
    SizeLine(c.size, c.ext, |c.data|, data);
    assert data[..|c.data|] == c.data && data[|c.data|..] == CRLF + next;
    assert (CRLF + next)[2..] == next;
  }

  /** Strict decoding of any encoding: the contents when they fit, otherwise "too big". */
  lemma {:induction false} StrictDecodes(cs: seq<Chunk>, last: Chunk, fields: seq<bytes>, rest: bytes,
                                         cap: Option<nat>, copied: bytes)
    requires EncodingOk(cs, last, fields) && |copied| + |Content(cs)| <= SIZE_MAX
    ensures var r := Strict(EncodeTo(cs, last, fields, rest), cap, copied);
            if cap.None? || cs == [] || |copied| + |Content(cs)| < cap.value
            then r == Complete(copied + Content(cs), rest) else r.TooBig?
    decreases |cs|
  {
    if cs == [] {
      SizeLine(last.size, last.ext, 0, TrailersTo(fields, rest));
      TrailersDecode(fields, copied, rest);
      assert copied + [] == copied;
    } else {
      ChunkDecodes(cs[0], EncodeTo(cs[1..], last, fields, rest), cap, copied);
      assert EncodingOk(cs[1..], last, fields);
      StrictDecodes(cs[1..], last, fields, rest, cap, copied + cs[0].data);
      ConcatAssoc(copied, cs[0].data, Content(cs[1..]));
    }
  }

  /** Every proper prefix of an encoding asks for more: an answer on the prefix would be the answer
      on the whole, which leaves nothing unread. */
  lemma PrefixNeedsMore(cs: seq<Chunk>, last: Chunk, fields: seq<bytes>, cap: Option<nat>, k: nat)
    requires EncodingOk(cs, last, fields)
    requires cap.None? || |Content(cs)| < cap.value
    requires k < |EncodeTo(cs, last, fields, [])|
    ensures Strict(EncodeTo(cs, last, fields, [])[..k], cap, []) == NeedMore
  {
    var whole := EncodeTo(cs, last, fields, []);
    StrictDecodes(cs, last, fields, [], cap, []);
    var part, more := whole[..k], whole[k..];
    assert part + more == whole;
    if !Strict(part, cap, []).NeedMore? {
      StrictMore(part, cap, [], more);
    }
  }

  // ------------------------------------------------------------ bounded prefix

  function SkipBlank(s: bytes): (r: bytes)
    ensures |r| <= |s|
  {
    if s != [] && (s[0] == SPACE || s[0] == TAB) then SkipBlank(s[1..]) else s
  }

  /** Leading hexadecimal digits, sticking at the largest size instead of overflowing. */
  function ReadHexSat(s: bytes, value: nat, any: bool): (h: Hex)
    ensures h.Digits? && |h.rest| <= |s|
    ensures h.any && !any ==> |h.rest| < |s|
    decreases |s|
  {
    if s == [] || HexValue(s[0]) == 16 then Digits(value, any, s)
    else
      var more := if value <= (SIZE_MAX - HexValue(s[0])) / 16 then value * 16 + HexValue(s[0]) else SIZE_MAX;
      ReadHexSat(s[1..], more, true)
  }

  function ToLf(s: bytes): (r: bytes)
    ensures |r| <= |s| && (r == [] || r[0] == LF)
  {
    if s == [] || s[0] == LF then s else ToLf(s[1..])
  }

  datatype Prefix = Prefix(copied: bytes, complete: bool)

  /** What a buffer of cap bytes, one of them for the NUL, takes of the data behind copied. */
  function Filled(copied: bytes, data: bytes, cap: nat): (r: bytes)
    ensures copied <= r
  {
    if |copied| + 1 < cap
    then copied + data[..if |data| < cap - 1 - |copied| then |data| else cap - 1 - |copied|]
    else copied
  }

  /** The lenient decoder, into a buffer of cap bytes. */
  function Lenient(s: bytes, cap: nat, copied: bytes): (r: Prefix)
    decreases |s|
  {
    if s == [] then Prefix(copied, false) else
    var h := ReadHexSat(SkipBlank(s), 0, false);
    if !h.any then Prefix(copied, false) else
    var t := ToLf(h.rest);
    if t == [] then Prefix(copied, false)
    else if h.value == 0 then Prefix(copied, true)
    else LenientData(t[1..], h.value, cap, copied)
  }

  function LenientData(data: bytes, n: nat, cap: nat, copied: bytes): (r: Prefix)
    decreases |data|
  {
    var got := Filled(copied, if |data| < n then data else data[..n], cap);
    if (cap > 0 && |got| + 1 >= cap) || |data| < n then Prefix(got, false) else
    var t := AfterEol(data[n..]);
    if t.None? then Prefix(got, false) else Lenient(t.value, cap, got)
  }

  /** The bytes after a line end, which may be a bare LF. */
  function AfterEol(t: bytes): (r: Option<bytes>)
    ensures r.Some? ==> |r.value| < |t|
  {
    if t == [] then None
    else if t[0] == CR then (if |t| < 2 || t[1] != LF then None else Some(t[2..]))
    else if t[0] == LF then Some(t[1..])
    else None
  }

  function FirstBytes(content: bytes, cap: nat): bytes {
    if cap == 0 then [] else if |content| < cap then content else content[..cap - 1]
  }

  lemma {:induction false} SatAgrees(s: bytes, value: nat, any: bool)
    requires ReadHex(s, value, any).Digits?
    ensures ReadHexSat(s, value, any) == ReadHex(s, value, any)
    decreases |s|
  {
    if s != [] && HexValue(s[0]) != 16 {
      SatAgrees(s[1..], value * 16 + HexValue(s[0]), true);
    }
  }

  lemma {:induction false} ToLfAfterCr(s: bytes)
    requires EndLine(ToLineEnd(s)).Line?
    ensures ToLf(s) != [] && ToLf(s)[1..] == EndLine(ToLineEnd(s)).after
    decreases |s|
  {
    if s[0] == CR {
      assert s[1..][1..] == s[2..];
    } else {
      ToLfAfterCr(s[1..]);
    }
  }

  lemma {:induction false} ContentExtends(s: bytes, cap: Option<nat>, copied: bytes)
    ensures Strict(s, cap, copied).Complete? ==> copied <= Strict(s, cap, copied).content
    decreases |s|
  {
    var h := ReadHex(s, 0, false);
    if h.Digits? && h.any && EndLine(ToLineEnd(h.rest)).Line? {
      var data, n := EndLine(ToLineEnd(h.rest)).after, h.value;
      if n == 0 {
        TrailersContent(data, copied);
      } else if n <= |data| && EndLine(data[n..]).Line? {
        ContentExtends(EndLine(data[n..]).after, cap, copied + data[..n]);
      }
    }
  }

  lemma {:induction false} TrailersContent(s: bytes, copied: bytes)
    ensures Trailers(s, copied).Complete? ==> Trailers(s, copied).content == copied
    decreases |s|
  {
    var t := ToLineEnd(s);
    if EndLine(t).Line? && |t| != |s| {
      TrailersContent(EndLine(t).after, copied);
    }
  }

  lemma FilledFirst(copied: bytes, data: bytes, cap: nat)
    ensures Filled(FirstBytes(copied, cap), data, cap) == FirstBytes(copied + data, cap)
  {
    if |copied| < cap - 1 {
      if |data| < cap - 1 - |copied| {
        assert data[..|data|] == data;
      } else {
        assert (copied + data)[..cap - 1] == copied + data[..cap - 1 - |copied|];
      }
    } else if cap > 0 {
      assert (copied + data)[..cap - 1] == copied[..cap - 1];
    }
  }

  /** The two decoders read a well-formed size line alike. */
  lemma SizeLineAgrees(s: bytes, cap: nat, copied: bytes)
    requires var h := ReadHex(s, 0, false); h.Digits? && h.any && EndLine(ToLineEnd(h.rest)).Line?
    ensures var h := ReadHex(s, 0, false);
            Lenient(s, cap, copied)
              == if h.value == 0 then Prefix(copied, true)
                 else LenientData(EndLine(ToLineEnd(h.rest)).after, h.value, cap, copied)
  {
    SatAgrees(s, 0, false);
    assert SkipBlank(s) == s;
    ToLfAfterCr(ReadHex(s, 0, false).rest);
  }

  /** A content that goes on from bytes that already fill the buffer has the same first bytes. */
  lemma FullPrefix(copied: bytes, content: bytes, cap: nat)
    requires copied <= content && cap > 0 && |FirstBytes(copied, cap)| + 1 >= cap
    ensures FirstBytes(content, cap) == FirstBytes(copied, cap)
  {
    assert content[..|copied|] == copied;
    assert content[..cap - 1] == copied[..cap - 1];
  }

  /** The buffer never fills up before the closing chunk is reached; one of no bytes never does. */
  predicate FitsWhole(content: bytes, cap: nat) {
    cap == 0 || content == [] || |content| + 1 < cap
  }

  /** Whenever the strict decoder succeeds, the lenient one returns the first bytes of the same
      content, as many as its buffer holds, and says that it saw the end exactly when the buffer
      did not fill up before. */
  lemma {:induction false} LenientIsPrefix(s: bytes, cap: nat, copied: bytes)
    requires Strict(s, None, copied).Complete?
    requires cap == 0 || |FirstBytes(copied, cap)| + 1 < cap || copied == []
    ensures Lenient(s, cap, FirstBytes(copied, cap)).copied == FirstBytes(Strict(s, None, copied).content, cap)
    ensures Lenient(s, cap, FirstBytes(copied, cap)).complete <==> FitsWhole(Strict(s, None, copied).content, cap)
    decreases |s|, 1
  {
    var h := ReadHex(s, 0, false);
    var data := EndLine(ToLineEnd(h.rest)).after;
    SizeLineAgrees(s, cap, FirstBytes(copied, cap));
    if h.value == 0 {
      TrailersContent(data, copied);
    } else {
      DataIsPrefix(data, h.value, cap, copied);
    }
  }

  lemma {:induction false} DataIsPrefix(data: bytes, n: nat, cap: nat, copied: bytes)
    requires n > 0 && Data(data, n, None, copied).Complete?
    ensures LenientData(data, n, cap, FirstBytes(copied, cap)).copied
         == FirstBytes(Data(data, n, None, copied).content, cap)
    ensures LenientData(data, n, cap, FirstBytes(copied, cap)).complete
       <==> FitsWhole(Data(data, n, None, copied).content, cap)
    decreases |data|, 0
  {
    var sofar, next := copied + data[..n], EndLine(data[n..]).after;
    FilledFirst(copied, data[..n], cap);
    assert AfterEol(data[n..]) == Some(next);
    if cap > 0 && |FirstBytes(sofar, cap)| + 1 >= cap {
      ContentExtends(next, None, sofar);
      FullPrefix(sofar, Strict(next, None, sofar).content, cap);
    } else {
      LenientIsPrefix(next, cap, sofar);
    }
  }
}
