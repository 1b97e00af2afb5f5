/**
 The POST path of the transport: what is kept of a response, when reading it
 may stop, and what stopping early can cost.
 */
module HttpSend {
  import opened Bytes
  import opened Options
  import opened Chunked
  import opened Http
  import ChunkedLoops

  const BODY_CAP: nat := 256
  const RETRY_CAP: nat := 64
  const K_RETRY: bytes := Text("retry-after:")

  /** What the sender learns from a response. */
  datatype Meta = Meta(status: int, retryAfter: bytes, body: bytes)

  /** The rest of the line, at most n bytes of it. */
  function LineStart(s: bytes, n: nat): bytes {
    if s == [] || IsEol(s[0]) || n == 0 then [] else [s[0]] + LineStart(s[1..], n - 1)
  }

  function RetryAfter(head: bytes): bytes {
    match HeaderValue(head, K_RETRY, true)
    case None => []
    case Some(v) => LineStart(SkipBlank(v), RETRY_CAP - 1)
  }

  /** The first bytes of the body, in which a quota notice is looked for. */
  function Kept(head: bytes, body: bytes): bytes {
    if TransferChunked(head) then Lenient(body, BODY_CAP, []).copied else FirstBytes(body, BODY_CAP)
  }

  function MetaOf(resp: bytes): Meta {
    match HeaderEnd(resp)
    case None => Meta(Status(resp), RetryAfter(resp), [])
    case Some(at) => Meta(Status(resp), RetryAfter(resp[..at]), Kept(resp[..at], resp[at + 4..]))
  }

  /** The POST path stops reading here. */
  predicate Enough(resp: bytes) {
    var at := HeaderEnd(resp);
    at.Some? && EnoughParts(resp[..at.value], resp[at.value + 4..])
  }

  predicate EnoughParts(head: bytes, body: bytes) {
    if TransferChunked(head) then
      var p := Lenient(body, BODY_CAP, []);
      p.complete || |p.copied| >= BODY_CAP - 1
    else if ContentLength(head).Some? then |body| >= ContentLength(head).value || |body| >= BODY_CAP - 1
    else body != []
  }

  // ------------------------------------------------------------- more bytes

  lemma {:induction false} SkipBlankMore(s: bytes, more: bytes)
    requires SkipBlank(s) != []
    ensures SkipBlank(s + more) == SkipBlank(s) + more
    decreases |s|
  {
    assert (s + more)[0] == s[0] && (s + more)[1..] == s[1..] + more;
    if s[0] == SPACE || s[0] == TAB {
      SkipBlankMore(s[1..], more);
    }
  }

  lemma {:induction false} HexSatMore(s: bytes, value: nat, any: bool, more: bytes)
    requires ReadHexSat(s, value, any).rest != []
    ensures var h := ReadHexSat(s, value, any);
            ReadHexSat(s + more, value, any) == Digits(h.value, h.any, h.rest + more)
    decreases |s|
  {
    assert (s + more)[0] == s[0] && (s + more)[1..] == s[1..] + more;
    if HexValue(s[0]) != 16 {
      var next := if value <= (SIZE_MAX - HexValue(s[0])) / 16 then value * 16 + HexValue(s[0]) else SIZE_MAX;
      HexSatMore(s[1..], next, true, more);
    }
  }

  lemma {:induction false} ToLfMore(s: bytes, more: bytes)
    requires ToLf(s) != []
    ensures ToLf(s + more) == ToLf(s) + more
    decreases |s|
  {
    assert (s + more)[0] == s[0] && (s + more)[1..] == s[1..] + more;
    if s[0] != LF {
      ToLfMore(s[1..], more);
    }
  }

  /** A size line that is there stays as it is. */
  lemma SizeLineMore(s: bytes, more: bytes)
    requires var h := ReadHexSat(SkipBlank(s), 0, false); h.any && ToLf(h.rest) != []
    ensures var h := ReadHexSat(SkipBlank(s), 0, false);
            var g := ReadHexSat(SkipBlank(s + more), 0, false);
            g.any && g.value == h.value && ToLf(g.rest) == ToLf(h.rest) + more
  {
    var h := ReadHexSat(SkipBlank(s), 0, false);
    SkipBlankMore(s, more);
    HexSatMore(SkipBlank(s), 0, false, more);
    ToLfMore(h.rest, more);
  }

  lemma AfterEolMore(t: bytes, more: bytes)
    requires AfterEol(t).Some?
    ensures AfterEol(t + more) == Some(AfterEol(t).value + more)
  {
    assert (t + more)[1..] == t[1..] + more;
    if t[0] == CR {
      assert (t + more)[2..] == t[2..] + more;
    }
  }

  /** A buffer that is full takes no more. */
  lemma FilledMore(copied: bytes, data: bytes, more: bytes, cap: nat)
    requires |Filled(copied, data, cap)| + 1 >= cap
    ensures Filled(copied, data + more, cap) == Filled(copied, data, cap)
  {
    if |copied| + 1 < cap {
      var room := cap - 1 - |copied|;
      assert (data + more)[..room] == data[..room];
    }
  }

  /** The lenient decoder saw the end, or its buffer is full. */
  predicate Settled(p: Prefix, cap: nat) {
    p.complete || |p.copied| + 1 >= cap
  }

  /** Once the lenient decoder saw the end or filled its buffer, what follows does not matter. */
  lemma {:induction false} LenientMore(s: bytes, cap: nat, copied: bytes, more: bytes)
    requires |copied| + 1 < cap && Settled(Lenient(s, cap, copied), cap)
    ensures Lenient(s + more, cap, copied) == Lenient(s, cap, copied)
    decreases |s|, 1
  {
    var h := ReadHexSat(SkipBlank(s), 0, false);
    SizeLineMore(s, more);
    var t := ToLf(h.rest);
    assert (t + more)[1..] == t[1..] + more;
    if h.value != 0 {
      LenientDataMore(t[1..], h.value, cap, copied, more);
    }
  }

  lemma {:induction false} LenientDataMore(data: bytes, n: nat, cap: nat, copied: bytes, more: bytes)
    requires |copied| + 1 < cap && Settled(LenientData(data, n, cap, copied), cap)
    ensures LenientData(data + more, n, cap, copied) == LenientData(data, n, cap, copied)
    decreases |data|, 0
  {
    var all := data + more;
    if |data| < n {
      var rest := if |all| < n then more else all[|data|..n];
      assert (if |all| < n then all else all[..n]) == data + rest;
      FilledMore(copied, data, rest, cap);
    } else {
      assert all[..n] == data[..n] && all[n..] == data[n..] + more;
      var got := Filled(copied, data[..n], cap);
      if |got| + 1 < cap {
        AfterEolMore(data[n..], more);
        LenientMore(AfterEol(data[n..]).value, cap, got, more);
      }
    }
  }

  lemma {:induction false} SkipToMore(s: bytes, space: bool, more: bytes)
    requires SkipTo(s, space) != []
    ensures SkipTo(s + more, space) == SkipTo(s, space) + more
    decreases |s|
  {
    assert (s + more)[0] == s[0] && (s + more)[1..] == s[1..] + more;
    if (s[0] == SPACE) != space {
      SkipToMore(s[1..], space, more);
    }
  }

  /** A status that was read stays. */
  lemma StatusMore(s: bytes, more: bytes)
    requires Status(s) >= 0
    ensures Status(s + more) == Status(s)
  {
    SkipToMore(s, true, more);
    SkipToMore(SkipTo(s, true), false, more);
  }

  // ------------------------------------------------------------ early stops

  lemma KeptIff(head: bytes, body: bytes, more: bytes)
    requires EnoughParts(head, body)
    ensures Kept(head, body + more) == Kept(head, body)
       <==> TransferChunked(head) || |body| >= BODY_CAP - 1 || more == []
  {
    if TransferChunked(head) {
      LenientMore(body, BODY_CAP, [], more);
    } else if |body| >= BODY_CAP - 1 {
      assert (body + more)[..BODY_CAP - 1] == body[..BODY_CAP - 1];
    } else if more == [] {
      assert body + more == body;
    } else {
      assert |Kept(head, body)| < |Kept(head, body + more)|;
    }
  }

  lemma MetaOfParts(resp: bytes)
    requires HeaderEnd(resp).Some?
    ensures MetaOf(resp) == Meta(Status(resp), RetryAfter(HeadOf(resp)), Kept(HeadOf(resp), BodyOf(resp)))
    ensures Enough(resp) == EnoughParts(HeadOf(resp), BodyOf(resp))
  {
  }

  /** What an early stop keeps, whatever would have followed: the status, once it was read, and the
      Retry-After. It keeps the prefix in which a quota notice is looked for exactly if the body is
      chunked, or fills the prefix, or was all there is. */
  lemma StoppingKeeps(resp: bytes, more: bytes)
    requires Enough(resp)
    ensures Status(resp) >= 0 ==> MetaOf(resp + more).status == MetaOf(resp).status
    ensures MetaOf(resp + more).retryAfter == MetaOf(resp).retryAfter
    ensures MetaOf(resp + more).body == MetaOf(resp).body
       <==> TransferChunked(HeadOf(resp)) || |BodyOf(resp)| >= BODY_CAP - 1 || more == []
  {
    PartsOfMore(resp, more);
    MetaOfParts(resp);
    MetaOfParts(resp + more);
    KeptIff(HeadOf(resp), BodyOf(resp), more);
    if Status(resp) >= 0 {
      StatusMore(resp, more);
    }
  }

  /** So a server that frames its body, and sends no more than it promised, loses no notice. */
  lemma FramedBodyIsKept(resp: bytes, more: bytes)
    requires Enough(resp)
    requires var len := ContentLength(HeadOf(resp));
             TransferChunked(HeadOf(resp)) || (len.Some? && |BodyOf(resp)| + |more| <= len.value)
    ensures MetaOf(resp + more).body == MetaOf(resp).body
  {
    StoppingKeeps(resp, more);
  }

  /** A server that just closes the connection may lose it: reading stops at the first byte of body. */
  lemma UnframedBodyIsCut() returns (resp: bytes, more: bytes)
    ensures Enough(resp) && Status(resp) == 200 && MetaOf(resp + more).body != MetaOf(resp).body
  {
    var head: bytes := [72, SPACE, 50, 48, 48];
    var tail: bytes := [CR, LF, CR, LF, LBRACE];
    resp, more := head + tail, [RBRACE];
    HeadEnds(head, tail);
    assert resp[..5] == head && |resp[9..]| == 1;
    assert |head| < |K_TRANSFER| && |head| < |K_LENGTH|;
    StatusIs200(resp);
    StoppingKeeps(resp, more);
  }

  lemma StatusIs200(resp: bytes)
    requires |resp| >= 5 && resp[..5] == [72, SPACE, 50, 48, 48]
    ensures Status(resp) == 200
  {
    assert forall i | 0 <= i < 5 :: resp[i] == resp[..5][i];
    assert SkipTo(resp, true) == SkipTo(resp[1..], true) == resp[1..];
    assert SkipTo(resp[1..], false) == SkipTo(resp[1..][1..], false) == resp[2..];
  }

  lemma {:induction false} HeadEnds(head: bytes, tail: bytes)
    requires CR !in head && BlankLine(tail)
    ensures HeaderEnd(head + tail) == Some(|head|)
  {
    if head == [] {
      assert head + tail == tail;
    } else {
      assert (head + tail)[0] == head[0] && (head + tail)[1..] == head[1..] + tail;
      HeadEnds(head[1..], tail);
    }
  }

  // --------------------------------------------------------------- the loops

  /** The status and the parts of a response that the sender looks at. */
  method ParseMeta(resp: bytes) returns (m: Meta)
    ensures m == MetaOf(resp)
  {
    var end := FindHeaderEnd(resp);
    var head := if end.Some? then resp[..end.value] else resp;
    var status := ParseStatus(resp);
    var retry := ScanRetryAfter(head);
    var kept: bytes := [];
    if end.Some? {
      kept := CopyBody(head, resp[end.value + 4..]);
    }
    m := Meta(status, retry, kept);
  }

  method CopyBody(head: bytes, body: bytes) returns (kept: bytes)
    ensures kept == Kept(head, body)
  {
    var chunked := ScanTransferChunked(head);
    if chunked {
      var p := ChunkedLoops.CopyPrefix(body, BODY_CAP);
      return p.copied;
    }
    var n := if |body| < BODY_CAP - 1 then |body| else BODY_CAP - 1;
    assert |body| < BODY_CAP ==> body[..n] == body;
    return body[..n];
  }

  method ScanRetryAfter(head: bytes) returns (value: bytes)
    ensures value == RetryAfter(head)
  {
    var at := ScanHeader(head, K_RETRY);
    if at.None? {
      return [];
    }
    var j := ChunkedLoops.ScanBlank(head, at.value);
    ghost var want := LineStart(head[j..], RETRY_CAP - 1);
    value := [];
    while j < |head| && !IsEol(head[j]) && |value| + 1 < RETRY_CAP
      invariant j <= |head| && |value| < RETRY_CAP
      invariant want == value + LineStart(head[j..], RETRY_CAP - 1 - |value|)
      decreases |head| - j
    {
      assert head[j..][1..] == head[j + 1..];
      ConcatAssoc(value, [head[j]], LineStart(head[j + 1..], RETRY_CAP - 2 - |value|));
      value := value + [head[j]];
      j := j + 1;
    }
    assert value + [] == value;
  }

  /** The completeness test of the POST path. */
  method CheckEnough(resp: bytes) returns (yes: bool)
    ensures yes == Enough(resp)
  {
    var end := FindHeaderEnd(resp);
    if end.None? {
      return false;
    }
    var head, body := resp[..end.value], resp[end.value + 4..];
    var chunked := ScanTransferChunked(head);
    if chunked {
      var p := ChunkedLoops.CopyPrefix(body, BODY_CAP);
      return p.complete || |p.copied| >= BODY_CAP - 1;
    }
    var len := ScanContentLength(head);
    if len.Some? {
      return |body| >= len.value || |body| >= BODY_CAP - 1;
    }
    return |body| >= BODY_CAP - 1 || |body| > 0;
  }
}
