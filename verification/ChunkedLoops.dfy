/** The chunk decoders as they run: loops that move a position over the body. */
module ChunkedLoops {
  import opened Bytes
  import opened Options
  import opened Chunked

  method ScanHex(body: bytes, start: nat) returns (overflow: bool, value: nat, any: bool, pos: nat)
    requires start <= |body|
    ensures start <= pos <= |body|
    ensures overflow ==> ReadHex(body[start..], 0, false).Overflow?
    ensures !overflow ==> ReadHex(body[start..], 0, false) == Digits(value, any, body[pos..])
  {
    overflow, value, any, pos := false, 0, false, start;
    ghost var want := ReadHex(body[start..], 0, false);
    while pos < |body|
      invariant start <= pos <= |body| && !overflow
      invariant want == ReadHex(body[pos..], value, any)
    {
      var hv := HexValue(body[pos]);
      if hv == 16 {
        return;
      }
      if value > (SIZE_MAX - hv) / 16 {
        overflow := true;
        return;
      }
      assert body[pos..][1..] == body[pos + 1..];
      value, any, pos := value * 16 + hv, true, pos + 1;
    }
  }

  method ScanHexSat(body: bytes, start: nat) returns (value: nat, any: bool, pos: nat)
    requires start <= |body|
    ensures start <= pos <= |body|
    ensures ReadHexSat(body[start..], 0, false) == Digits(value, any, body[pos..])
  {
    value, any, pos := 0, false, start;
    ghost var want := ReadHexSat(body[start..], 0, false);
    while pos < |body|
      invariant start <= pos <= |body|
      invariant want == ReadHexSat(body[pos..], value, any)
    {
      var hv := HexValue(body[pos]);
      if hv == 16 {
        return;
      }
      assert body[pos..][1..] == body[pos + 1..];
      value := if value <= (SIZE_MAX - hv) / 16 then value * 16 + hv else SIZE_MAX;
      any, pos := true, pos + 1;
    }
  }

  method ScanLineEnd(body: bytes, start: nat) returns (pos: nat)
    requires start <= |body|
    ensures start <= pos <= |body| && body[pos..] == ToLineEnd(body[start..])
  {
    pos := start;
    while pos < |body| && body[pos] != CR && body[pos] != LF
      invariant start <= pos <= |body|
      invariant ToLineEnd(body[start..]) == ToLineEnd(body[pos..])
    {
      assert body[pos..][1..] == body[pos + 1..];
      pos := pos + 1;
    }
  }

  /** A size line: 0 needs more, -1 is malformed, 1 leaves the position after its CR LF. */
  method ScanLine(body: bytes, start: nat) returns (rc: int, pos: nat)
    requires start <= |body|
    ensures start <= pos <= |body|
    ensures rc == 0 <==> EndLine(ToLineEnd(body[start..])).Short?
    ensures rc == -1 <==> EndLine(ToLineEnd(body[start..])).Bad?
    ensures rc != 0 && rc != -1 ==> rc == 1 && EndLine(ToLineEnd(body[start..])) == Line(body[pos..])
  {
    pos := ScanLineEnd(body, start);
    if pos + 1 >= |body| {
      return 0, pos;
    }
    if body[pos] != CR || body[pos + 1] != LF {
      return -1, pos;
    }
    assert body[pos..][2..] == body[pos + 2..];
    return 1, pos + 2;
  }

  method ScanTrailers(body: bytes, start: nat, copied: bytes) returns (r: Result)
    requires start <= |body|
    ensures r == Trailers(body[start..], copied)
  {
    var pos := start;
    ghost var want := Trailers(body[start..], copied);
    while true
      invariant start <= pos <= |body|
      invariant want == Trailers(body[pos..], copied)
      decreases |body| - pos
    {
      var line := pos;
      var rc;
      rc, pos := ScanLine(body, pos);
      if rc == 0 {
        return NeedMore;
      }
      if rc == -1 {
        return Malformed(copied);
      }
      if pos == line + 2 {
        return Complete(copied, body[pos..]);
      }
    }
  }

  /** The strict decoder's loop. */
  method DecodeFull(body: bytes, cap: Option<nat>) returns (r: Result)
    ensures r == Strict(body, cap, [])
  {
    var pos := 0;
    var copied: bytes := [];
    assert body[0..] == body;
    ghost var want := Strict(body, cap, []);
    while true
      invariant 0 <= pos <= |body|
      invariant want == Strict(body[pos..], cap, copied)
      decreases |body| - pos
    {
      var overflow, n, any, p := ScanHex(body, pos);
      if overflow {
        return Malformed(copied);
      }
      if !any {
        return if p == |body| then NeedMore else Malformed(copied);
      }
      var rc, q := ScanLine(body, p);
      if rc == 0 {
        return NeedMore;
      }
      if rc == -1 {
        return Malformed(copied);
      }
      if n == 0 {
        r := ScanTrailers(body, q, copied);
        return;
      }
      var done;
      done, r, pos := TakeChunk(body, q, n, cap, copied);
      if done {
        return;
      }
      copied := copied + body[q..q + n];
    }
  }

  /** One chunk's data and the line end after it; done says that the answer is final. */
  method TakeChunk(body: bytes, start: nat, n: nat, cap: Option<nat>, copied: bytes)
    returns (done: bool, r: Result, pos: nat)
    requires start <= |body| && n > 0
    ensures done ==> r == Data(body[start..], n, cap, copied)
    ensures !done ==> start + n <= |body| && start < pos <= |body|
                      && Data(body[start..], n, cap, copied)
                         == Strict(body[pos..], cap, copied + body[start..start + n])
  {
    pos := start;
    if n > |body| - start {
      return true, NeedMore, pos;
    }
    if n > SIZE_MAX - |copied| {
      return true, Malformed(copied), pos;
    }
    if cap.Some? && (cap.value == 0 || |copied| >= cap.value || n >= cap.value - |copied|) {
      return true, TooBig(copied), pos;
    }
    var data := body[start..start + n];
    assert body[start..][..n] == data && body[start..][n..] == body[start + n..];
    pos := start + n;
    if pos + 1 >= |body| {
      return true, NeedMore, pos;
    }
    if body[pos] != CR || body[pos + 1] != LF {
      return true, Malformed(copied + data), pos;
    }
    assert body[start + n..][2..] == body[pos + 2..];
    return false, NeedMore, pos + 2;
  }

  /** The lenient decoder's loop. */
  method CopyPrefix(body: bytes, cap: nat) returns (r: Prefix)
    ensures r == Lenient(body, cap, [])
  {
    var pos := 0;
    var copied: bytes := [];
    assert body[0..] == body;
    ghost var want := Lenient(body, cap, []);
    while pos < |body|
      invariant 0 <= pos <= |body|
      invariant want == Lenient(body[pos..], cap, copied)
      decreases |body| - pos
    {
      var ok, n, data := ScanLenientSize(body, pos);
      if !ok {
        return Prefix(copied, false);
      }
      if n == 0 {
        return Prefix(copied, true);
      }
      var done;
      LenientDataAt(body, data, n, cap, copied);
      done, copied, pos := TakeLenient(body, data, n, cap, copied);
      if done {
        return Prefix(copied, false);
      }
    }
    return Prefix(copied, false);
  }

  method ScanBlank(body: bytes, start: nat) returns (pos: nat)
    requires start <= |body|
    ensures start <= pos <= |body| && body[pos..] == SkipBlank(body[start..])
  {
    pos := start;
    while pos < |body| && (body[pos] == SPACE || body[pos] == TAB)
      invariant start <= pos <= |body|
      invariant SkipBlank(body[start..]) == SkipBlank(body[pos..])
    {
      assert body[pos..][1..] == body[pos + 1..];
      pos := pos + 1;
    }
  }

  method ScanLf(body: bytes, start: nat) returns (pos: nat)
    requires start <= |body|
    ensures start <= pos <= |body| && body[pos..] == ToLf(body[start..])
  {
    pos := start;
    while pos < |body| && body[pos] != LF
      invariant start <= pos <= |body|
      invariant ToLf(body[start..]) == ToLf(body[pos..])
    {
      assert body[pos..][1..] == body[pos + 1..];
      pos := pos + 1;
    }
  }

  /** A size line of the lenient grammar; it fails when no digit or no line end is there. */
  method ScanLenientSize(body: bytes, start: nat) returns (ok: bool, n: nat, pos: nat)
    requires start < |body|
    ensures var h := ReadHexSat(SkipBlank(body[start..]), 0, false);
            && (ok <==> h.any && ToLf(h.rest) != [])
            && (ok ==> start < pos <= |body| && n == h.value && body[pos..] == ToLf(h.rest)[1..])
  {
    pos := ScanBlank(body, start);
    var any;
    n, any, pos := ScanHexSat(body, pos);
    if !any {
      return false, n, pos;
    }
    pos := ScanLf(body, pos);
    if pos >= |body| {
      return false, n, pos;
    }
    assert body[pos..][1..] == body[pos + 1..];
    return true, n, pos + 1;
  }

  /** What there is of a chunk of n bytes. */
  function Avail(body: bytes, start: nat, n: nat): (take: nat)
    requires start <= |body|
    ensures start + take <= |body| && take <= n
  {
    if |body| - start < n then |body| - start else n
  }

  method TakeLenient(body: bytes, start: nat, n: nat, cap: nat, copied: bytes)
    returns (done: bool, got: bytes, pos: nat)
    requires start <= |body| && n > 0
    ensures got == Filled(copied, body[start..start + Avail(body, start, n)], cap)
    ensures done == ((cap > 0 && |got| + 1 >= cap) || Avail(body, start, n) < n || AfterEol(body[start + n..]).None?)
    ensures !done ==> start < pos <= |body| && AfterEol(body[start + n..]) == Some(body[pos..])
  {
    pos := start;
    var avail := |body| - start;
    var take := if avail < n then avail else n;
    got := CopyRoom(body, start, take, cap, copied);
    if (cap > 0 && |got| + 1 >= cap) || avail < n {
      return true, got, pos;
    }
    var ok, next := SkipEol(body, start + n);
    return !ok, got, next;
  }

  /** The lenient reading of a chunk, by positions in the body. */
  lemma LenientDataAt(body: bytes, start: nat, n: nat, cap: nat, copied: bytes)
    requires start <= |body|
    ensures var take := Avail(body, start, n);
            var got := Filled(copied, body[start..start + take], cap);
            LenientData(body[start..], n, cap, copied)
              == if (cap > 0 && |got| + 1 >= cap) || take < n || AfterEol(body[start + n..]).None?
                 then Prefix(got, false)
                 else Lenient(AfterEol(body[start + n..]).value, cap, got)
  {
    var take := Avail(body, start, n);
    assert body[start..start + take] == if |body[start..]| < n then body[start..] else body[start..][..n];
    if take == n {
      assert body[start..][n..] == body[start + n..];
    }
  }

  /** Copy what fits, keeping a byte for the NUL. */
  method CopyRoom(body: bytes, start: nat, take: nat, cap: nat, copied: bytes) returns (got: bytes)
    requires start + take <= |body|
    ensures got == Filled(copied, body[start..start + take], cap)
  {
    got := copied;
    if |copied| + 1 < cap {
      var room := cap - 1 - |copied|;
      var copy := if take < room then take else room;
      assert body[start..start + take][..copy] == body[start..start + copy];
      got := copied + body[start..start + copy];
    }
  }

  method SkipEol(body: bytes, pos: nat) returns (ok: bool, next: nat)
    requires pos <= |body|
    ensures ok <==> AfterEol(body[pos..]).Some?
    ensures ok ==> pos < next <= |body| && AfterEol(body[pos..]) == Some(body[next..])
  {
    if pos >= |body| {
      return false, pos;
    }
    if body[pos] == CR {
      if pos + 1 >= |body| || body[pos + 1] != LF {
        return false, pos;
      }
      assert body[pos..][2..] == body[pos + 2..];
      return true, pos + 2;
    }
    if body[pos] == LF {
      assert body[pos..][1..] == body[pos + 1..];
      return true, pos + 1;
    }
    return false, pos;
  }
}
