/**
 Whole HTTP responses: where the head ends, how the body is framed, when the
 fetch path may stop reading, and what it then decodes.
 */
module Http {
  import opened Bytes
  import opened Options
  import opened Chunked
  import ChunkedLoops

  const MAX_CONTENT_LEN: nat := 100_000_000

  // -------------------------------------------------------------------- head

  predicate BlankLine(s: bytes) {
    |s| >= 4 && s[0] == CR && s[1] == LF && s[2] == CR && s[3] == LF
  }

  /** Where the head ends, or None while it is incomplete. */
  function HeaderEnd(s: bytes): (r: Option<nat>)
    ensures r.Some? ==> r.value + 4 <= |s|
  {
    if |s| < 4 then None
    else if BlankLine(s) then Some(0)
    else
      var r := HeaderEnd(s[1..]);
      if r.Some? then Some(1 + r.value) else None
  }

  lemma {:induction false} HeaderEndMore(s: bytes, more: bytes)
    requires HeaderEnd(s).Some?
    ensures HeaderEnd(s + more) == HeaderEnd(s)
    decreases |s|
  {
    assert forall i | 0 <= i < 4 :: (s + more)[i] == s[i];
    if !BlankLine(s) {
      assert (s + more)[1..] == s[1..] + more;
      HeaderEndMore(s[1..], more);
    }
  }

  function SkipTo(s: bytes, space: bool): (r: bytes)
    ensures |r| <= |s|
  {
    if s != [] && (s[0] == SPACE) != space then SkipTo(s[1..], space) else s
  }

  /** The three digits after the first run of spaces, or -1. */
  function Status(head: bytes): int {
    var t := SkipTo(SkipTo(head, true), false);
    if |t| < 3 || !IsDigit(t[0]) || !IsDigit(t[1]) || !IsDigit(t[2]) then -1
    else Number(t[0], t[1], t[2])
  }

  function Number(a: int, b: int, c: int): int {
    (a - 48) * 100 + (b - 48) * 10 + (c - 48)
  }

  function Lower(b: byte): byte {
    if 65 <= b <= 90 then b + 32 else b
  }

  /** s starts with the lower-case key, in any case. */
  predicate StartsWith(s: bytes, key: bytes) {
    |key| <= |s| && forall i | 0 <= i < |key| :: Lower(s[i]) == key[i]
  }

  /** What follows the first header line named key. */
  function HeaderValue(head: bytes, key: bytes, lineStart: bool): (r: Option<bytes>)
    decreases |head|
  {
    if |head| < |key| then None
    else if lineStart && StartsWith(head, key) then Some(head[|key|..])
    else if head == [] then None
    else HeaderValue(head[1..], key, head[0] == LF)
  }

  const K_LENGTH: bytes := Text("content-length:")
  const K_TRANSFER: bytes := Text("transfer-encoding:")
  const T_CHUNKED: bytes := Text("chunked")

  /** Decimal digits, with the source's ceiling. */
  function DecimalTo(s: bytes, len: nat): nat
    decreases |s|
  {
    if s == [] || !IsDigit(s[0]) then len
    else if len > MAX_CONTENT_LEN then MAX_CONTENT_LEN
    else DecimalTo(s[1..], len * 10 + (s[0] - 48))
  }

  /** The Content-Length, or None when there is none that can be read. */
  function ContentLength(head: bytes): Option<nat> {
    match HeaderValue(head, K_LENGTH, true)
    case None => None
    case Some(v) =>
      var d := SkipBlank(v);
      if d == [] || !IsDigit(d[0]) then None else Some(DecimalTo(d, 0))
  }

  predicate IsEol(b: byte) {
    b == CR || b == LF
  }

  predicate IsSeparator(b: byte) {
    b == SPACE || b == TAB || b == COMMA
  }

  function SkipSeparators(s: bytes): (r: bytes)
    ensures |r| <= |s|
  {
    if s != [] && IsSeparator(s[0]) then SkipSeparators(s[1..]) else s
  }

  function TokenLength(s: bytes): (n: nat)
    ensures n <= |s|
    ensures s != [] && !IsEol(s[0]) && !IsSeparator(s[0]) ==> n > 0
  {
    if s == [] || IsEol(s[0]) || IsSeparator(s[0]) then 0 else 1 + TokenLength(s[1..])
  }

  function ToComma(s: bytes): (r: bytes)
    ensures |r| <= |s|
    ensures s != [] && r == s ==> IsEol(s[0]) || s[0] == COMMA
  {
    if s == [] || IsEol(s[0]) || s[0] == COMMA then s else ToComma(s[1..])
  }

  /** The token list of a header line names "chunked". */
  predicate ListsChunked(v: bytes)
    decreases |v|
  {
    v != [] && !IsEol(v[0]) &&
    var t := SkipSeparators(v);
    var n := TokenLength(t);
    || (n == |T_CHUNKED| && StartsWith(t, T_CHUNKED))
    || (var u := ToComma(t[n..]); |u| < |v| && ListsChunked(u))
  }

  predicate TransferChunked(head: bytes) {
    var v := HeaderValue(head, K_TRANSFER, true);
    v.Some? && ListsChunked(v.value)
  }

  // ---------------------------------------------------------------- response

  datatype Outcome = Truncated | TooLarge | Answer(status: int, body: bytes)

  /** The status and body of a response, into a buffer of cap bytes. */
  function Decode(resp: bytes, cap: nat): Outcome {
    match HeaderEnd(resp)
    case None => Truncated
    case Some(at) => DecodeParts(resp[..at], resp[at + 4..], cap)
  }

  function DecodeParts(head: bytes, body: bytes, cap: nat): Outcome {
    var status := Status(head);
    if status < 0 then Truncated
    else if TransferChunked(head) then
      match Strict(body, Some(cap), [])
      case TooBig(_) => TooLarge
      case Complete(content, _) => Answer(status, content)
      case _ => Truncated
    else
      var len := ContentLength(head);
      if len.Some? && len.value > |body| then Truncated
      else
        var n := if len.Some? then len.value else |body|;
        if n > 0 && (cap == 0 || n >= cap) then TooLarge else Answer(status, body[..n])
  }

  /** The fetch path stops reading here. */
  predicate ResponseComplete(resp: bytes) {
    var at := HeaderEnd(resp);
    at.Some? && PartsComplete(resp[..at.value], resp[at.value + 4..])
  }

  predicate PartsComplete(head: bytes, body: bytes) {
    if TransferChunked(head) then !Strict(body, None, []).NeedMore?
    else ContentLength(head).Some? && |body| >= ContentLength(head).value
  }

  function HeadOf(resp: bytes): bytes
    requires HeaderEnd(resp).Some?
  {
    resp[..HeaderEnd(resp).value]
  }

  function BodyOf(resp: bytes): bytes
    requires HeaderEnd(resp).Some?
  {
    resp[HeaderEnd(resp).value + 4..]
  }

  /** Further bytes belong to the body. */
  lemma PartsOfMore(resp: bytes, more: bytes)
    requires HeaderEnd(resp).Some?
    ensures HeaderEnd(resp + more).Some?
    ensures HeadOf(resp + more) == HeadOf(resp) && BodyOf(resp + more) == BodyOf(resp) + more
  {
    HeaderEndMore(resp, more);
    var at := HeaderEnd(resp).value;
    assert (resp + more)[..at] == resp[..at];
    assert (resp + more)[at + 4..] == resp[at + 4..] + more;
  }

  /** Stopping early equals reading everything: a response judged complete decodes to the same
      status and body, or the same error, whatever bytes would have followed. */
  lemma StoppingEarlyIsSafe(resp: bytes, more: bytes, cap: nat)
    requires ResponseComplete(resp)
    ensures Decode(resp + more, cap) == Decode(resp, cap)
    ensures ResponseComplete(resp + more)
  {
    PartsOfMore(resp, more);
    PartsMore(HeadOf(resp), BodyOf(resp), more, cap);
  }

  lemma PartsMore(head: bytes, body: bytes, more: bytes, cap: nat)
    requires PartsComplete(head, body)
    ensures DecodeParts(head, body + more, cap) == DecodeParts(head, body, cap)
    ensures PartsComplete(head, body + more)
  {
    if TransferChunked(head) {
      ChunkedMore(body, more, cap);
    } else {
      var n := ContentLength(head).value;
      assert (body + more)[..n] == body[..n];
    }
  }

  /** A chunked body that is complete, or broken, stays so and reads the same, in any buffer. */
  lemma ChunkedMore(body: bytes, more: bytes, cap: nat)
    requires !Strict(body, None, []).NeedMore?
    ensures Strict(body + more, None, []) == Extended(Strict(body, None, []), more)
    ensures !Strict(body, Some(cap), []).NeedMore?
    ensures Strict(body + more, Some(cap), []) == Extended(Strict(body, Some(cap), []), more)
  {
    CapOnlyOverfills(body, cap, []);
    StrictMore(body, Some(cap), [], more);
    StrictMore(body, None, [], more);
  }

  method FindHeaderEnd(resp: bytes) returns (at: Option<nat>)
    ensures at == HeaderEnd(resp)
  {
    var i := 0;
    assert resp[0..] == resp;
    while i + 3 < |resp|
      invariant 0 <= i <= |resp|
      invariant HeaderEnd(resp) == if HeaderEnd(resp[i..]).Some? then Some(i + HeaderEnd(resp[i..]).value) else None
    {
      if resp[i] == CR && resp[i + 1] == LF && resp[i + 2] == CR && resp[i + 3] == LF {
        return Some(i);
      }
      assert resp[i..][1..] == resp[i + 1..];
      i := i + 1;
    }
    return None;
  }

  method ScanTo(s: bytes, start: nat, space: bool) returns (i: nat)
    requires start <= |s|
    ensures start <= i <= |s| && s[i..] == SkipTo(s[start..], space)
  {
    i := start;
    while i < |s| && (s[i] == SPACE) != space
      invariant start <= i <= |s|
      invariant SkipTo(s[start..], space) == SkipTo(s[i..], space)
    {
      assert s[i..][1..] == s[i + 1..];
      i := i + 1;
    }
  }

  method ParseStatus(head: bytes) returns (status: int)
    ensures status == Status(head)
  {
    assert head[0..] == head;
    var i := ScanTo(head, 0, true);
    i := ScanTo(head, i, false);
    if i + 3 > |head| || !IsDigit(head[i]) || !IsDigit(head[i + 1]) || !IsDigit(head[i + 2]) {
      return -1;
    }
    return Number(head[i], head[i + 1], head[i + 2]);
  }

  method Matches(s: bytes, at: nat, key: bytes) returns (yes: bool)
    requires at + |key| <= |s|
    ensures yes == StartsWith(s[at..], key)
  {
    var k := 0;
    while k < |key| && Lower(s[at + k]) == key[k]
      invariant 0 <= k <= |key|
      invariant forall j | 0 <= j < k :: Lower(s[at..][j]) == key[j]
    {
      k := k + 1;
    }
    assert k < |key| ==> Lower(s[at..][k]) != key[k];
    return k == |key|;
  }

  /** Find a header line; the offset is that of its value. */
  method ScanHeader(head: bytes, key: bytes) returns (at: Option<nat>)
    requires key != []
    ensures at.Some? ==> at.value <= |head|
    ensures HeaderValue(head, key, true) == if at.Some? then Some(head[at.value..]) else None
  {
    var i := 0;
    assert head[0..] == head;
    while i + |key| <= |head|
      invariant 0 <= i <= |head|
      invariant HeaderValue(head, key, true) == HeaderValue(head[i..], key, i == 0 || head[i - 1] == LF)
    {
      if i == 0 || head[i - 1] == LF {
        var yes := Matches(head, i, key);
        if yes {
          assert head[i..][|key|..] == head[i + |key|..];
          return Some(i + |key|);
        }
      }
      assert head[i..][1..] == head[i + 1..];
      i := i + 1;
    }
    return None;
  }

  method ScanContentLength(head: bytes) returns (len: Option<nat>)
    ensures len == ContentLength(head)
  {
    var at := ScanHeader(head, K_LENGTH);
    if at.None? {
      return None;
    }
    var j := ChunkedLoops.ScanBlank(head, at.value);
    if j >= |head| || !IsDigit(head[j]) {
      return None;
    }
    var n := ScanDecimal(head, j);
    return Some(n);
  }

  method ScanDecimal(head: bytes, start: nat) returns (n: nat)
    requires start <= |head|
    ensures n == DecimalTo(head[start..], 0)
  {
    n := 0;
    var j := start;
    while j < |head| && IsDigit(head[j])
      invariant start <= j <= |head|
      invariant DecimalTo(head[start..], 0) == DecimalTo(head[j..], n)
    {
      if n > MAX_CONTENT_LEN {
        return MAX_CONTENT_LEN;
      }
      assert head[j..][1..] == head[j + 1..];
      n := n * 10 + (head[j] - 48);
      j := j + 1;
    }
  }

  method ScanSeparators(s: bytes, start: nat) returns (j: nat)
    requires start <= |s|
    ensures start <= j <= |s| && s[j..] == SkipSeparators(s[start..])
  {
    j := start;
    while j < |s| && IsSeparator(s[j])
      invariant start <= j <= |s|
      invariant SkipSeparators(s[start..]) == SkipSeparators(s[j..])
    {
      assert s[j..][1..] == s[j + 1..];
      j := j + 1;
    }
  }

  method ScanToken(s: bytes, start: nat) returns (j: nat)
    requires start <= |s|
    ensures start <= j <= |s| && TokenLength(s[start..]) == j - start
  {
    j := start;
    while j < |s| && !IsEol(s[j]) && !IsSeparator(s[j])
      invariant start <= j <= |s|
      invariant TokenLength(s[start..]) == j - start + TokenLength(s[j..])
    {
      assert s[j..][1..] == s[j + 1..];
      j := j + 1;
    }
  }

  method ScanComma(s: bytes, start: nat) returns (j: nat)
    requires start <= |s|
    ensures start <= j <= |s| && s[j..] == ToComma(s[start..])
  {
    j := start;
    while j < |s| && !IsEol(s[j]) && s[j] != COMMA
      invariant start <= j <= |s|
      invariant ToComma(s[start..]) == ToComma(s[j..])
    {
      assert s[j..][1..] == s[j + 1..];
      j := j + 1;
    }
  }

  method ScanTransferChunked(head: bytes) returns (yes: bool)
    ensures yes == TransferChunked(head)
  {
    var at := ScanHeader(head, K_TRANSFER);
    if at.None? {
      return false;
    }
    var j := at.value;
    while j < |head| && !IsEol(head[j])
      invariant at.value <= j <= |head|
      invariant TransferChunked(head) == ListsChunked(head[j..])
    {
      var found;
      found, j := ScanItem(head, j);
      if found {
        return true;
      }
    }
    return false;
  }

  /** One item of the token list, up to the comma or the line end. */
  method ScanItem(s: bytes, from: nat) returns (found: bool, next: nat)
    requires from < |s| && !IsEol(s[from])
    ensures found ==> ListsChunked(s[from..])
    ensures !found ==> from < next <= |s| && ListsChunked(s[from..]) == ListsChunked(s[next..])
  {
    var start := ScanSeparators(s, from);
    var end := ScanToken(s, start);
    found := false;
    if end - start == |T_CHUNKED| {
      found := Matches(s, start, T_CHUNKED);
    }
    next := ScanComma(s, end);
    assert s[start..][end - start..] == s[end..];
    ItemStep(s[from..]);
  }

  /** The first item of a token list is the one, or the list goes on behind its comma. */
  lemma ItemStep(v: bytes)
    requires v != [] && !IsEol(v[0])
    ensures var t := SkipSeparators(v);
            var n := TokenLength(t);
            var u := ToComma(t[n..]);
            && |u| < |v|
            && (ListsChunked(v) <==> (n == |T_CHUNKED| && StartsWith(t, T_CHUNKED)) || ListsChunked(u))
  {
  }

  /** The body decoder of the fetch path. */
  method DecodeResponse(resp: bytes, cap: nat) returns (r: Outcome)
    ensures r == Decode(resp, cap)
  {
    var end := FindHeaderEnd(resp);
    if end.None? {
      return Truncated;
    }
    var head, body := resp[..end.value], resp[end.value + 4..];
    var status := ParseStatus(head);
    if status < 0 {
      return Truncated;
    }
    var chunked := ScanTransferChunked(head);
    if chunked {
      var rc := ChunkedLoops.DecodeFull(body, Some(cap));
      if rc.TooBig? {
        return TooLarge;
      }
      return if rc.Complete? then Answer(status, rc.content) else Truncated;
    }
    var n := |body|;
    var len := ScanContentLength(head);
    if len.Some? {
      if len.value > |body| {
        return Truncated;
      }
      n := len.value;
    }
    if n > 0 && (cap == 0 || n >= cap) {
      return TooLarge;
    }
    return Answer(status, body[..n]);
  }

  /** The completeness test of the fetch path. */
  method CheckComplete(resp: bytes) returns (yes: bool)
    ensures yes == ResponseComplete(resp)
  {
    var end := FindHeaderEnd(resp);
    if end.None? {
      return false;
    }
    var head, body := resp[..end.value], resp[end.value + 4..];
    var chunked := ScanTransferChunked(head);
    if chunked {
      var rc := ChunkedLoops.DecodeFull(body, None);
      return !rc.NeedMore?;
    }
    var len := ScanContentLength(head);
    return len.Some? && |body| >= len.value;
  }
}
