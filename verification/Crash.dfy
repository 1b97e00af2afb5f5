/**
 The crash record: what the signal handler leaves on disk and the next start reads back.
 Little-endian fields, then module names with their lengths, then frames.
 */
module Crash {
  import opened Bytes
  import opened Options

  const MAX_FRAMES: nat := 64
  const MAX_MODULES: nat := 16
  const NAME_CAP: nat := 64
  const VERSION: nat := 2
  const NO_MODULE: nat := 0xFFFF
  const RECORD_MAX: nat := 20 + MAX_MODULES * (2 + NAME_CAP) + 2 + MAX_FRAMES * (2 + 8)

  // ----------------------------------------------------------- data model

  /** A frame: its module, or -1, and the offset in it. */
  datatype Frame = Frame(module_: int, off: nat)

  /** The handler's structure: fixed arrays, of which the counts say how much is in use. */
  datatype Info = Info(sig: int, fault: nat, moduleCount: int, modules: seq<bytes>, frameCount: int, frames: seq<Frame>)

  /** The sizes and widths that the C types give. */
  ghost predicate InfoOk(c: Info) {
    && -0x8000_0000 <= c.sig < 0x8000_0000 && c.fault < 0x1_0000_0000_0000_0000
    && |c.modules| == MAX_MODULES && |c.frames| == MAX_FRAMES
    && (forall i | 0 <= i < |c.modules| :: |c.modules[i]| == NAME_CAP)
    && (forall i | 0 <= i < |c.frames| :: c.frames[i].off < 0x1_0000_0000_0000_0000)
  }

  /** What a record says. */
  datatype Report = Report(sig: int, fault: nat, names: seq<bytes>, frames: seq<Frame>)

  function Clamp(n: int, cap: nat): (r: nat)
    ensures r <= cap && (0 <= n <= cap ==> r == n)
  {
    if n < 0 then 0 else if n > cap then cap else n
  }

  /** The characters before the terminator. */
  function CName(s: bytes): (r: bytes)
    ensures |r| <= |s| && r == s[..|r|] && NulFree(r) && (|r| < |s| ==> s[|r|] == NUL)
  {
    if s == [] || s[0] == NUL then [] else [s[0]] + CName(s[1..])
  }

  /** The name of every module in use is terminated within its array. */
  ghost predicate Terminated(c: Info)
    requires InfoOk(c)
  {
    AllTerminated(c.modules[..Clamp(c.moduleCount, MAX_MODULES)])
  }

  ghost predicate AllTerminated(modules: seq<bytes>) {
    forall i | 0 <= i < |modules| :: NUL in modules[i]
  }

  ghost predicate Short(names: seq<bytes>) {
    forall i | 0 <= i < |names| :: |names[i]| < NAME_CAP
  }

  function Names(modules: seq<bytes>): (r: seq<bytes>)
    ensures |r| == |modules| && forall i | 0 <= i < |r| :: r[i] == CName(modules[i])
  {
    seq(|modules|, i requires 0 <= i < |modules| => CName(modules[i]))
  }

  /** A module index as its field stores it, and as it is read in a record of mc modules. */
  function Wire(m: int): (w: nat)
    ensures w < 0x10000
  {
    if m < 0 then NO_MODULE else m % 0x10000
  }

  function Index(w: nat, mc: nat): int {
    if w == NO_MODULE || w >= mc then -1 else w
  }

  function Seen(frames: seq<Frame>, mc: nat): (r: seq<Frame>)
    ensures |r| == |frames|
    ensures forall i | 0 <= i < |r| :: r[i] == Frame(Index(Wire(frames[i].module_), mc), frames[i].off)
  {
    seq(|frames|, i requires 0 <= i < |frames| => Frame(Index(Wire(frames[i].module_), mc), frames[i].off))
  }

  /** The part of the structure in use. */
  function View(c: Info): Report
    requires |c.modules| == MAX_MODULES && |c.frames| == MAX_FRAMES
  {
    var mc := Clamp(c.moduleCount, MAX_MODULES);
    Report(c.sig, c.fault, Names(c.modules[..mc]), Seen(c.frames[..Clamp(c.frameCount, MAX_FRAMES)], mc))
  }

  // ------------------------------------------------------------- integers

  function Pow256(n: nat): (p: nat)
    ensures p > 0
  {
    if n == 0 then 1 else 256 * Pow256(n - 1)
  }

  function Le(v: nat, n: nat): (r: bytes)
    ensures |r| == n
  {
    if n == 0 then [] else [v % 256] + Le(v / 256, n - 1)
  }

  function Val(s: bytes): (v: nat) {
    if s == [] then 0 else s[0] + 256 * Val(s[1..])
  }

  lemma {:induction false} ValLe(v: nat, n: nat)
    requires v < Pow256(n)
    ensures Val(Le(v, n)) == v
  {
    if n > 0 {
      assert Le(v, n)[1..] == Le(v / 256, n - 1);
      ValLe(v / 256, n - 1);
    }
  }

  lemma Widths()
    ensures Pow256(2) == 0x1_0000 && Pow256(4) == 0x1_0000_0000 && Pow256(8) == 0x1_0000_0000_0000_0000
  {
    assert Pow256(1) == 256 * Pow256(0) && Pow256(2) == 256 * Pow256(1);
    assert Pow256(3) == 256 * Pow256(2) && Pow256(4) == 256 * Pow256(3);
    assert Pow256(5) == 256 * Pow256(4) && Pow256(6) == 256 * Pow256(5);
    assert Pow256(7) == 256 * Pow256(6) && Pow256(8) == 256 * Pow256(7);
  }

  // -------------------------------------------------------------- writing

  function NamesBytes(names: seq<bytes>): (r: bytes)
  {
    if names == [] then [] else Le(|names[0]|, 2) + names[0] + NamesBytes(names[1..])
  }

  function FrameBytes(f: Frame): (r: bytes)
    ensures |r| == 10
  {
    Le(Wire(f.module_), 2) + Le(f.off, 8)
  }

  function FramesBytes(frames: seq<Frame>): (r: bytes)
    ensures |r| == 10 * |frames|
  {
    if frames == [] then [] else FrameBytes(frames[0]) + FramesBytes(frames[1..])
  }

  function Unsigned(sig: int): (u: nat)
    ensures u < 0x1_0000_0000
  {
    sig % 0x1_0000_0000
  }

  function Head(sig: int, fault: nat, mc: nat): (r: bytes)
    ensures |r| == 20
  {
    Text("PHCR") + Le(VERSION, 2) + Le(Unsigned(sig), 4) + Le(fault, 8) + Le(mc, 2)
  }

  function Body(names: seq<bytes>, frames: seq<Frame>): bytes {
    NamesBytes(names) + (Le(|frames|, 2) + FramesBytes(frames))
  }

  function Encoded(c: Info): bytes
    requires |c.modules| == MAX_MODULES && |c.frames| == MAX_FRAMES
  {
    var mc := Clamp(c.moduleCount, MAX_MODULES);
    Head(c.sig, c.fault, mc) + Body(Names(c.modules[..mc]), c.frames[..Clamp(c.frameCount, MAX_FRAMES)])
  }

  // -------------------------------------------------------------- reading

  datatype Part = Refused | Read(names: seq<bytes>, rest: bytes)

  function ReadNames(s: bytes, n: nat): (p: Part)
    ensures p.Read? ==> |p.names| == n && |p.rest| <= |s|
    decreases n
  {
    if n == 0 then Read([], s)
    else if |s| < 2 then Refused
    else
      var nl := Val(s[..2]);
      if nl >= NAME_CAP || nl > |s| - 2 then Refused
      else
        var p := ReadNames(s[2 + nl..], n - 1);
        if p.Refused? then Refused else Read([s[2..2 + nl]] + p.names, p.rest)
  }

  function ReadFrame(s: bytes, mc: nat): Frame
    requires |s| >= 10
  {
    Frame(Index(Val(s[..2]), mc), Val(s[2..10]))
  }

  function ReadFrames(s: bytes, n: nat, mc: nat): (r: seq<Frame>)
    requires |s| >= 10 * n
    ensures |r| == n
    decreases n
  {
    if n == 0 then [] else [ReadFrame(s, mc)] + ReadFrames(s[10..], n - 1, mc)
  }

  datatype Decoded = Decoded(report: Report, rest: bytes)

  function Signed(u: nat): int {
    if u < 0x8000_0000 then u else u - 0x1_0000_0000
  }

  datatype Start = Start(sig: int, fault: nat, mc: nat)

  /** The fixed fields, if this is a record of the known version. */
  function Header(s: bytes): Option<Start> {
    if |s| < 20 || s[..4] != Text("PHCR") || Val(s[4..6]) != VERSION || Val(s[18..20]) > MAX_MODULES then None
    else Some(Start(Signed(Val(s[6..10])), Val(s[10..18]), Val(s[18..20])))
  }

  /** The decoder's reading, with the bytes it does not look at. */
  function Decode(s: bytes): Option<Decoded> {
    var h := Header(s);
    if h.None? then None
    else
      var p := ReadNames(s[20..], h.value.mc);
      if p.Refused? then None else Frames(h.value.sig, h.value.fault, p.names, p.rest)
  }

  function Frames(sig: int, fault: nat, names: seq<bytes>, s: bytes): Option<Decoded> {
    if |s| < 2 then None
    else
      var fc := Val(s[..2]);
      if fc > MAX_FRAMES || 2 + fc * 10 > |s| then None
      else Some(Decoded(Report(sig, fault, names, ReadFrames(s[2..], fc, |names|)), s[2 + fc * 10..]))
  }

  // ------------------------------------------------------------ round trip

  lemma Split<T>(a: seq<T>, b: seq<T>)
    ensures (a + b)[..|a|] == a && (a + b)[|a|..] == b
  {
  }

  lemma ShortHead(names: seq<bytes>)
    requires names != []
    ensures Short(names) <==> |names[0]| < NAME_CAP && Short(names[1..])
    ensures [names[0]] + names[1..] == names
  {
    assert forall i | 1 <= i < |names| :: names[i] == names[1..][i - 1];
  }

  lemma NameField(a: bytes, more: bytes)
    requires |a| <= NAME_CAP
    ensures var s := Le(|a|, 2) + a + more;
            Val(s[..2]) == |a| && s[2..2 + |a|] == a && s[2 + |a|..] == more
  {
    var s := Le(|a|, 2) + a + more;
    Widths();
    ValLe(|a|, 2);
    assert s[..2] == Le(|a|, 2);
  }

  /** Reading one more name in front. */
  lemma ReadOneMore(a: bytes, more: bytes, n: nat)
    requires |a| <= NAME_CAP
    ensures ReadNames(Le(|a|, 2) + a + more, n + 1)
         == var p := ReadNames(more, n);
            if |a| == NAME_CAP || p.Refused? then Refused else Read([a] + p.names, p.rest)
  {
    Widths();
    NameField(a, more);
  }

  /** A whole list of names is read back, exactly when none is as long as its array. */
  lemma {:induction false} NamesRoundTrip(names: seq<bytes>, tail: bytes)
    requires forall i | 0 <= i < |names| :: |names[i]| <= NAME_CAP
    ensures ReadNames(NamesBytes(names) + tail, |names|)
              == if Short(names) then Read(names, tail) else Refused
    decreases |names|
  {
    if names == [] {
      assert NamesBytes(names) + tail == tail;
    } else {
      var a := names[0];
      var more := NamesBytes(names[1..]) + tail;
      ConcatAssoc(Le(|a|, 2) + a, NamesBytes(names[1..]), tail);
      ReadOneMore(a, more, |names| - 1);
      NamesRoundTrip(names[1..], tail);
      ShortHead(names);
    }
  }

  lemma FrameRoundTrip(f: Frame, mc: nat, tail: bytes)
    requires f.off < 0x1_0000_0000_0000_0000
    ensures ReadFrame(FrameBytes(f) + tail, mc) == Frame(Index(Wire(f.module_), mc), f.off)
  {
    var s := FrameBytes(f) + tail;
    Widths();
    ValLe(Wire(f.module_), 2);
    ValLe(f.off, 8);
    assert s[..2] == Le(Wire(f.module_), 2) && s[2..10] == Le(f.off, 8);
  }

  lemma {:induction false} FramesRoundTrip(frames: seq<Frame>, mc: nat, tail: bytes)
    requires forall i | 0 <= i < |frames| :: frames[i].off < 0x1_0000_0000_0000_0000
    ensures ReadFrames(FramesBytes(frames) + tail, |frames|, mc) == Seen(frames, mc)
    decreases |frames|
  {
    if frames != [] {
      var f, more := frames[0], FramesBytes(frames[1..]) + tail;
      ConcatAssoc(FrameBytes(f), FramesBytes(frames[1..]), tail);
      Split(FrameBytes(f), more);
      FrameRoundTrip(f, mc, more);
      FramesRoundTrip(frames[1..], mc, tail);
      SeenHead(frames, mc);
    }
  }

  lemma SeenHead(frames: seq<Frame>, mc: nat)
    requires frames != []
    ensures Seen(frames, mc) == [Frame(Index(Wire(frames[0].module_), mc), frames[0].off)] + Seen(frames[1..], mc)
  {
  }

  lemma HeadRoundTrip(sig: int, fault: nat, mc: nat, tail: bytes)
    requires -0x8000_0000 <= sig < 0x8000_0000 && fault < 0x1_0000_0000_0000_0000 && mc <= MAX_MODULES
    ensures Header(Head(sig, fault, mc) + tail) == Some(Start(sig, fault, mc))
    ensures (Head(sig, fault, mc) + tail)[20..] == tail
  {
    var s := Head(sig, fault, mc) + tail;
    Widths();
    ValLe(VERSION, 2);
    ValLe(Unsigned(sig), 4);
    ValLe(fault, 8);
    ValLe(mc, 2);
    assert s[..4] == Text("PHCR") && s[4..6] == Le(VERSION, 2);
    assert s[6..10] == Le(Unsigned(sig), 4);
    assert s[10..18] == Le(fault, 8);
    assert s[18..20] == Le(mc, 2);
    assert s[20..] == tail;
  }

  lemma {:induction false} CNameStops(s: bytes, k: nat)
    requires k < |s| && s[k] == NUL
    ensures |CName(s)| <= k
    decreases k
  {
    if s[0] != NUL {
      CNameStops(s[1..], k - 1);
    }
  }

  lemma UnterminatedIsLong(modules: seq<bytes>)
    requires forall i | 0 <= i < |modules| :: |modules[i]| == NAME_CAP
    ensures AllTerminated(modules) <==> Short(Names(modules))
  {
    forall i | 0 <= i < |modules|
      ensures NUL in modules[i] <==> |Names(modules)[i]| < NAME_CAP
    {
      var m := modules[i];
      if NUL in m {
        var k :| 0 <= k < |m| && m[k] == NUL;
        CNameStops(m, k);
      }
    }
  }

  /** Reading back a record, whatever follows it, gives the structure's view exactly when every
      module name in use is terminated; otherwise the record is refused. */
  lemma DecodeOfEncode(c: Info, tail: bytes)
    requires InfoOk(c)
    ensures Decode(Encoded(c) + tail) == if Terminated(c) then Some(Decoded(View(c), tail)) else None
  {
    var mc, fc := Clamp(c.moduleCount, MAX_MODULES), Clamp(c.frameCount, MAX_FRAMES);
    var modules, frames := c.modules[..mc], c.frames[..fc];
    var names := Names(modules);
    var s := Encoded(c) + tail;
    var end := Le(fc, 2) + FramesBytes(frames) + tail;
    ConcatAssoc(NamesBytes(names), Le(fc, 2) + FramesBytes(frames), tail);
    ConcatAssoc(Head(c.sig, c.fault, mc), Body(names, frames), tail);
    HeadRoundTrip(c.sig, c.fault, mc, NamesBytes(names) + end);
    NamesRoundTrip(names, end);
    UnterminatedIsLong(modules);
    if Terminated(c) {
      FrameTail(c.sig, c.fault, names, frames, tail);
    }
  }

  lemma FrameTail(sig: int, fault: nat, names: seq<bytes>, frames: seq<Frame>, tail: bytes)
    requires |frames| <= MAX_FRAMES
    requires forall i | 0 <= i < |frames| :: frames[i].off < 0x1_0000_0000_0000_0000
    ensures Frames(sig, fault, names, Le(|frames|, 2) + FramesBytes(frames) + tail)
              == Some(Decoded(Report(sig, fault, names, Seen(frames, |names|)), tail))
  {
    var fc := |frames|;
    var count, list := Le(fc, 2), FramesBytes(frames);
    Widths();
    ValLe(fc, 2);
    ConcatAssoc(count, list, tail);
    Split(count, list + tail);
    Split(count + list, tail);
    FramesRoundTrip(frames, |names|, tail);
  }

  lemma SeenExact(frames: seq<Frame>, mc: nat)
    requires mc <= MAX_MODULES && forall i | 0 <= i < |frames| :: -1 <= frames[i].module_ < mc
    ensures Seen(frames, mc) == frames
  {
  }

  /** The structures whose view loses nothing: counts in range, every index a module in use. */
  ghost predicate WellFormed(c: Info) {
    && InfoOk(c) && 0 <= c.moduleCount <= MAX_MODULES && 0 <= c.frameCount <= MAX_FRAMES && Terminated(c)
    && forall i | 0 <= i < c.frameCount :: -1 <= c.frames[i].module_ < c.moduleCount
  }

  lemma WellFormedViewIsExact(c: Info)
    requires WellFormed(c)
    ensures var names, frames := Names(c.modules[..c.moduleCount]), c.frames[..c.frameCount];
            Decode(Encoded(c)) == Some(Decoded(Report(c.sig, c.fault, names, frames), []))
  {
    DecodeOfEncode(c, []);
    assert Encoded(c) + [] == Encoded(c);
    SeenExact(c.frames[..c.frameCount], c.moduleCount);
  }

  // -------------------------------------------------------------- prefixes

  lemma {:induction false} ReadNamesMore(s: bytes, n: nat, t: bytes)
    requires ReadNames(s, n).Read?
    ensures ReadNames(s + t, n) == ReadNames(s, n).(rest := ReadNames(s, n).rest + t)
    decreases n
  {
    if n > 0 {
      var nl := Val(s[..2]);
      assert (s + t)[..2] == s[..2];
      assert (s + t)[2..2 + nl] == s[2..2 + nl];
      assert (s + t)[2 + nl..] == s[2 + nl..] + t;
      ReadNamesMore(s[2 + nl..], n - 1, t);
    }
  }

  lemma {:induction false} ReadFramesMore(s: bytes, n: nat, mc: nat, t: bytes)
    requires |s| >= 10 * n
    ensures ReadFrames(s + t, n, mc) == ReadFrames(s, n, mc)
    decreases n
  {
    if n > 0 {
      assert (s + t)[..2] == s[..2] && (s + t)[2..10] == s[2..10] && (s + t)[10..] == s[10..] + t;
      ReadFramesMore(s[10..], n - 1, mc, t);
    }
  }

  lemma FramesMore(sig: int, fault: nat, names: seq<bytes>, s: bytes, t: bytes)
    requires Frames(sig, fault, names, s).Some?
    ensures Frames(sig, fault, names, s + t).Some?
    ensures Frames(sig, fault, names, s + t).value
              == Frames(sig, fault, names, s).value.(rest := Frames(sig, fault, names, s).value.rest + t)
  {
    var fc := Val(s[..2]);
    assert (s + t)[..2] == s[..2] && (s + t)[2..] == s[2..] + t;
    assert (s + t)[2 + fc * 10..] == s[2 + fc * 10..] + t;
    ReadFramesMore(s[2..], fc, |names|, t);
  }

  lemma HeaderMore(s: bytes, t: bytes)
    requires |s| >= 20
    ensures Header(s + t) == Header(s) && (s + t)[20..] == s[20..] + t
  {
    assert (s + t)[..4] == s[..4] && (s + t)[4..6] == s[4..6] && (s + t)[6..10] == s[6..10];
    assert (s + t)[10..18] == s[10..18] && (s + t)[18..20] == s[18..20];
  }

  /** Bytes after a record do not change what it says. */
  lemma DecodeMore(s: bytes, t: bytes)
    requires Decode(s).Some?
    ensures Decode(s + t) == Some(Decode(s).value.(rest := Decode(s).value.rest + t))
  {
    HeaderMore(s, t);
    var h := Header(s).value;
    ReadNamesMore(s[20..], h.mc, t);
    var p := ReadNames(s[20..], h.mc);
    FramesMore(h.sig, h.fault, p.names, p.rest, t);
  }

  /** No proper prefix of a byte string that is one whole record decodes. */
  lemma PrefixIsRefused(s: bytes, k: nat)
    requires k < |s| && (Decode(s).Some? ==> Decode(s).value.rest == [])
    ensures Decode(s[..k]) == None
  {
    if Decode(s[..k]).Some? {
      assert s[..k] + s[k..] == s && s[k..] != [];
      DecodeMore(s[..k], s[k..]);
      assert false;
    }
  }

  /** A record cut short anywhere is refused, whatever the structure held. */
  lemma TruncatedIsRefused(c: Info, k: nat)
    requires InfoOk(c) && k < |Encoded(c)|
    ensures Decode(Encoded(c)[..k]) == None
  {
    DecodeOfEncode(c, []);
    assert Encoded(c) + [] == Encoded(c);
    PrefixIsRefused(Encoded(c), k);
  }

  lemma {:induction false} NamesBytesFit(names: seq<bytes>)
    requires forall i | 0 <= i < |names| :: |names[i]| <= NAME_CAP
    ensures |NamesBytes(names)| <= |names| * (2 + NAME_CAP)
  {
    if names != [] {
      NamesBytesFit(names[1..]);
    }
  }

  /** The handler's fixed buffer holds every record. */
  lemma EncodedFits(c: Info)
    requires InfoOk(c)
    ensures |Encoded(c)| <= RECORD_MAX
  {
    NamesBytesFit(Names(c.modules[..Clamp(c.moduleCount, MAX_MODULES)]));
  }

  // ------------------------------------------------------------- the loops

  /** Write an unsigned integer, least significant byte first. */
  method Put(buf: array<byte>, at: nat, v: nat, n: nat)
    requires at + n <= buf.Length
    modifies buf
    ensures buf[..at + n] == old(buf[..at]) + Le(v, n)
    ensures buf[at + n..] == old(buf[at + n..])
  {
    var i, left := 0, v;
    ghost var all, before, after := Le(v, n), buf[..at], buf[at + n..];
    while i < n
      invariant 0 <= i <= n && |all| == n
      invariant all[i..] == Le(left, n - i)
      invariant buf[..at + i] == before + all[..i]
      invariant buf[at + n..] == after
    {
      assert all[i] == left % 256 && all[i + 1..] == all[i..][1..];
      buf[at + i] := left % 256;
      assert buf[..at + i + 1] == buf[..at + i] + [left % 256];
      left := left / 256;
      i := i + 1;
    }
    assert all[..n] == all;
  }

  method PutBytes(buf: array<byte>, at: nat, data: bytes)
    requires at + |data| <= buf.Length
    modifies buf
    ensures buf[..at + |data|] == old(buf[..at]) + data
    ensures buf[at + |data|..] == old(buf[at + |data|..])
  {
    forall i | 0 <= i < |data| {
      buf[at + i] := data[i];
    }
  }

  method BoundedLen(s: bytes) returns (n: nat)
    ensures n == |CName(s)| && CName(s) == s[..n]
  {
    n := 0;
    assert s[0..] == s;
    while n < |s| && s[n] != NUL
      invariant 0 <= n <= |s|
      invariant |CName(s)| == n + |CName(s[n..])|
    {
      assert s[n..][1..] == s[n + 1..];
      n := n + 1;
    }
  }

  ghost predicate Lengths(modules: seq<bytes>, lens: seq<nat>) {
    && |lens| == |modules|
    && forall i | 0 <= i < |lens| :: lens[i] == |CName(modules[i])| && CName(modules[i]) == modules[i][..lens[i]]
  }

  /** The length of each name, and the bytes that the names take. */
  method Measure(modules: seq<bytes>) returns (lens: seq<nat>, need: nat)
    ensures Lengths(modules, lens)
    ensures need == |NamesBytes(Names(modules))|
  {
    ghost var names := Names(modules);
    lens, need := [], 0;
    assert names[0..] == names;
    for i := 0 to |modules|
      invariant Lengths(modules[..i], lens)
      invariant need + |NamesBytes(names[i..])| == |NamesBytes(names)|
    {
      var n := BoundedLen(modules[i]);
      assert names[i..][1..] == names[i + 1..];
      lens, need := lens + [n], need + 2 + n;
    }
    assert modules[..|modules|] == modules;
  }

  lemma NamesStep(done: bytes, names: seq<bytes>, i: nat)
    requires i < |names|
    ensures (done + Le(|names[i]|, 2) + names[i]) + NamesBytes(names[i + 1..]) == done + NamesBytes(names[i..])
    ensures |NamesBytes(names[i..])| == 2 + |names[i]| + |NamesBytes(names[i + 1..])|
  {
    var a, more := names[i], NamesBytes(names[i + 1..]);
    assert names[i..][1..] == names[i + 1..];
    ConcatAssoc(done, Le(|a|, 2), a);
    ConcatAssoc(done, Le(|a|, 2) + a, more);
  }

  method PutName(buf: array<byte>, at: nat, name: bytes) returns (o: nat)
    requires at + 2 + |name| <= buf.Length
    modifies buf
    ensures o == at + 2 + |name|
    ensures buf[..o] == old(buf[..at]) + Le(|name|, 2) + name
    ensures buf[o..] == old(buf[o..])
  {
    o := at + 2 + |name|;
    Put(buf, at, |name|, 2);
    assert buf[o..] == buf[at + 2..][|name|..];
    PutBytes(buf, at + 2, name);
  }

  method PutNames(buf: array<byte>, at: nat, modules: seq<bytes>, lens: seq<nat>) returns (o: nat)
    requires Lengths(modules, lens)
    requires at + |NamesBytes(Names(modules))| <= buf.Length
    modifies buf
    ensures o == at + |NamesBytes(Names(modules))|
    ensures buf[..o] == old(buf[..at]) + NamesBytes(Names(modules))
    ensures buf[o..] == old(buf[o..])
  {
    ghost var names := Names(modules);
    ghost var end := at + |NamesBytes(names)|;
    ghost var goal, after := buf[..at] + NamesBytes(names), buf[end..];
    o := at;
    assert names[0..] == names;
    for i := 0 to |modules|
      invariant at <= o && o + |NamesBytes(names[i..])| == end
      invariant buf[..o] + NamesBytes(names[i..]) == goal
      invariant buf[end..] == after
    {
      NamesStep(buf[..o], names, i);
      o := PutName(buf, o, modules[i][..lens[i]]);
      assert buf[end..] == buf[o..][end - o..];
    }
  }

  lemma FramesStep(done: bytes, frames: seq<Frame>, i: nat)
    requires i < |frames|
    ensures (done + FrameBytes(frames[i])) + FramesBytes(frames[i + 1..]) == done + FramesBytes(frames[i..])
  {
    assert frames[i..][1..] == frames[i + 1..];
    ConcatAssoc(done, FrameBytes(frames[i]), FramesBytes(frames[i + 1..]));
  }

  method PutFrame(buf: array<byte>, at: nat, f: Frame)
    requires at + 10 <= buf.Length
    modifies buf
    ensures buf[..at + 10] == old(buf[..at]) + FrameBytes(f)
    ensures buf[at + 10..] == old(buf[at + 10..])
  {
    var mi := f.module_;
    Put(buf, at, if mi < 0 then NO_MODULE else mi % 0x10000, 2);
    assert buf[at + 10..] == buf[at + 2..][8..];
    Put(buf, at + 2, f.off, 8);
    ConcatAssoc(old(buf[..at]), Le(Wire(mi), 2), Le(f.off, 8));
  }

  method PutFrames(buf: array<byte>, at: nat, frames: seq<Frame>) returns (o: nat)
    requires at + 10 * |frames| <= buf.Length
    modifies buf
    ensures o == at + 10 * |frames|
    ensures buf[..o] == old(buf[..at]) + FramesBytes(frames)
    ensures buf[o..] == old(buf[o..])
  {
    ghost var end := at + 10 * |frames|;
    ghost var goal, after := buf[..at] + FramesBytes(frames), buf[end..];
    o := at;
    assert frames[0..] == frames;
    for i := 0 to |frames|
      invariant o == at + 10 * i
      invariant buf[..o] + FramesBytes(frames[i..]) == goal
      invariant buf[end..] == after
    {
      FramesStep(buf[..o], frames, i);
      PutFrame(buf, o, frames[i]);
      o := o + 10;
      assert buf[end..] == buf[o..][end - o..];
    }
  }

  method PutHead(buf: array<byte>, sig: int, fault: nat, mc: nat)
    requires buf.Length >= 20
    modifies buf
    ensures buf[..20] == Head(sig, fault, mc) && buf[20..] == old(buf[20..])
  {
    ghost var after := buf[20..];
    PutBytes(buf, 0, Text("PHCR"));
    assert buf[20..] == buf[4..][16..];
    Put(buf, 4, VERSION, 2);
    assert buf[20..] == buf[6..][14..];
    Put(buf, 6, Unsigned(sig), 4);
    assert buf[20..] == buf[10..][10..];
    Put(buf, 10, fault, 8);
    assert buf[20..] == buf[18..][2..];
    Put(buf, 18, mc, 2);
  }

  /** Write the record if the buffer has room for all of it; otherwise touch nothing. */
  method Encode(c: Info, buf: array<byte>) returns (n: nat)
    requires InfoOk(c)
    modifies buf
    ensures buf.Length < |Encoded(c)| ==> n == 0 && buf[..] == old(buf[..])
    ensures buf.Length >= |Encoded(c)| ==> n == |Encoded(c)| && buf[..n] == Encoded(c) && buf[n..] == old(buf[n..])
  {
    var mc, fc := c.moduleCount, c.frameCount;
    if mc < 0 {
      mc := 0;
    }
    if mc > MAX_MODULES {
      mc := MAX_MODULES;
    }
    if fc < 0 {
      fc := 0;
    }
    if fc > MAX_FRAMES {
      fc := MAX_FRAMES;
    }
    n := PutRecord(c.sig, c.fault, c.modules[..mc], c.frames[..fc], buf);
  }

  lemma Assoc4<T>(a: seq<T>, b: seq<T>, c: seq<T>, d: seq<T>)
    ensures ((a + b) + c) + d == a + (b + (c + d))
  {
    ConcatAssoc(a + b, c, d);
    ConcatAssoc(a, b, c + d);
  }

  method PutRecord(sig: int, fault: nat, modules: seq<bytes>, frames: seq<Frame>, buf: array<byte>) returns (n: nat)
    modifies buf
    ensures var r := Head(sig, fault, |modules|) + Body(Names(modules), frames);
            if buf.Length < |r| then n == 0 && buf[..] == old(buf[..])
            else n == |r| && buf[..n] == r && buf[n..] == old(buf[n..])
  {
    var lens, size := Measure(modules);
    var need := 20 + size + 2 + |frames| * 10;
    if buf.Length < need {
      return 0;
    }
    PutHead(buf, sig, fault, |modules|);
    assert buf[need..] == buf[20..][need - 20..];
    n := PutBody(buf, 20, modules, lens, frames);
  }

  /** The module names, the frame count and the frames. */
  method PutBody(buf: array<byte>, at: nat, modules: seq<bytes>, lens: seq<nat>, frames: seq<Frame>) returns (o: nat)
    requires Lengths(modules, lens) && at + |Body(Names(modules), frames)| <= buf.Length
    modifies buf
    ensures o == at + |Body(Names(modules), frames)|
    ensures buf[..o] == old(buf[..at]) + Body(Names(modules), frames)
    ensures buf[o..] == old(buf[o..])
  {
    ghost var end, before := at + |Body(Names(modules), frames)|, buf[..at];
    o := PutNames(buf, at, modules, lens);
    assert buf[end..] == buf[o..][end - o..];
    Put(buf, o, |frames|, 2);
    assert buf[end..] == buf[o + 2..][end - o - 2..];
    o := PutFrames(buf, o + 2, frames);
    Assoc4(before, NamesBytes(Names(modules)), Le(|frames|, 2), FramesBytes(frames));
  }

  lemma {:induction false} ValSnoc(s: bytes, b: byte)
    ensures Val(s + [b]) == Val(s) + Pow256(|s|) * b
  {
    if s == [] {
      assert (s + [b])[0] == b && (s + [b])[1..] == [];
    } else {
      assert (s + [b])[1..] == s[1..] + [b];
      ValSnoc(s[1..], b);
      assert Pow256(|s|) * b == 256 * (Pow256(|s| - 1) * b);
    }
  }

  /** Read an unsigned integer, least significant byte first. */
  method Fetch(s: bytes, at: nat, n: nat) returns (v: nat)
    requires at + n <= |s|
    ensures v == Val(s[at..at + n])
  {
    v := 0;
    var place: nat := 1;
    for i := 0 to n
      invariant v == Val(s[at..at + i]) && place == Pow256(i)
    {
      ValSnoc(s[at..at + i], s[at + i]);
      assert s[at..at + i + 1] == s[at..at + i] + [s[at + i]];
      v := v + place * s[at + i];
      place := 256 * place;
    }
  }

  function Prepend(names: seq<bytes>, p: Part): Part {
    if p.Refused? then Refused else Read(names + p.names, p.rest)
  }

  lemma NamesAt(s: bytes, o: nat, n: nat, names: seq<bytes>)
    requires n > 0 && o <= |s|
    ensures var want := Prepend(names, ReadNames(s[o..], n));
            if o + 2 > |s| then want.Refused?
            else
              var nl := Val(s[o..o + 2]);
              if nl >= NAME_CAP || o + 2 + nl > |s| then want.Refused?
              else want == Prepend(names + [s[o + 2..o + 2 + nl]], ReadNames(s[o + 2 + nl..], n - 1))
  {
    if o + 2 <= |s| {
      assert s[o..][..2] == s[o..o + 2];
      var nl := Val(s[o..o + 2]);
      if nl < NAME_CAP && o + 2 + nl <= |s| {
        var name := s[o + 2..o + 2 + nl];
        assert s[o..][2..2 + nl] == name && s[o..][2 + nl..] == s[o + 2 + nl..];
        var rest := ReadNames(s[o + 2 + nl..], n - 1);
        if rest.Read? {
          ConcatAssoc(names, [name], rest.names);
        }
      }
    }
  }

  /** One name at an offset. */
  method FetchName(s: bytes, o: nat, ghost left: nat, ghost names: seq<bytes>)
    returns (ok: bool, name: bytes, next: nat)
    requires left > 0 && o <= |s|
    ensures ok ==> o <= next <= |s|
    ensures Prepend(names, ReadNames(s[o..], left))
              == if ok then Prepend(names + [name], ReadNames(s[next..], left - 1)) else Refused
  {
    NamesAt(s, o, left, names);
    if o + 2 > |s| {
      return false, [], o;
    }
    var nl := Fetch(s, o, 2);
    if nl >= NAME_CAP || o + 2 + nl > |s| {
      return false, [], o;
    }
    return true, s[o + 2..o + 2 + nl], o + 2 + nl;
  }

  /** The names from an offset on: refused, or read up to the offset returned. */
  method FetchNames(s: bytes, at: nat, mc: nat) returns (ok: bool, names: seq<bytes>, o: nat)
    requires at <= |s|
    ensures ok ==> at <= o <= |s|
    ensures ReadNames(s[at..], mc) == if ok then Read(names, s[o..]) else Refused
  {
    ghost var want := ReadNames(s[at..], mc);
    ok, names, o := true, [], at;
    for i := 0 to mc
      invariant at <= o <= |s| && ok
      invariant want == Prepend(names, ReadNames(s[o..], mc - i))
    {
      var name;
      ok, name, o := FetchName(s, o, mc - i, names);
      if !ok {
        return;
      }
      names := names + [name];
    }
  }

  lemma FramesAt(s: bytes, o: nat, n: nat, mc: nat, frames: seq<Frame>)
    requires n > 0 && o + n * 10 <= |s|
    ensures var f := Frame(Index(Val(s[o..o + 2]), mc), Val(s[o + 2..o + 10]));
            frames + ReadFrames(s[o..], n, mc) == (frames + [f]) + ReadFrames(s[o + 10..], n - 1, mc)
  {
    var f := Frame(Index(Val(s[o..o + 2]), mc), Val(s[o + 2..o + 10]));
    assert s[o..][..2] == s[o..o + 2] && s[o..][2..10] == s[o + 2..o + 10] && s[o..][10..] == s[o + 10..];
    ConcatAssoc(frames, [f], ReadFrames(s[o + 10..], n - 1, mc));
  }

  /** The frames read, and those left to read from o on, are the frames wanted. */
  ghost predicate Reading(s: bytes, o: nat, left: nat, mc: nat, frames: seq<Frame>, want: seq<Frame>) {
    o + left * 10 <= |s| && frames + ReadFrames(s[o..], left, mc) == want
  }

  method FetchFrame(s: bytes, o: nat, mc: nat, ghost left: nat, ghost frames: seq<Frame>, ghost want: seq<Frame>)
    returns (f: Frame)
    requires left > 0 && Reading(s, o, left, mc, frames, want)
    ensures Reading(s, o + 10, left - 1, mc, frames + [f], want)
  {
    FramesAt(s, o, left, mc, frames);
    var mi := Fetch(s, o, 2);
    var off := Fetch(s, o + 2, 8);
    f := Frame(if mi == NO_MODULE || mi >= mc then -1 else mi, off);
  }

  method FetchFrames(s: bytes, at: nat, fc: nat, mc: nat) returns (frames: seq<Frame>)
    requires at + fc * 10 <= |s|
    ensures frames == ReadFrames(s[at..], fc, mc)
  {
    ghost var want := ReadFrames(s[at..], fc, mc);
    frames := [];
    var o := at;
    assert [] + want == want;
    for i := 0 to fc
      invariant Reading(s, o, fc - i, mc, frames, want)
    {
      var f := FetchFrame(s, o, mc, fc - i, frames, want);
      frames, o := frames + [f], o + 10;
    }
    assert frames + [] == frames;
  }

  method FetchHeader(s: bytes) returns (h: Option<Start>)
    ensures h == Header(s)
  {
    if |s| < 20 || s[..4] != Text("PHCR") {
      return None;
    }
    var version := Fetch(s, 4, 2);
    if version != VERSION {
      return None;
    }
    var u := Fetch(s, 6, 4);
    var fault := Fetch(s, 10, 8);
    var mc := Fetch(s, 18, 2);
    return if mc > MAX_MODULES then None else Some(Start(Signed(u), fault, mc));
  }

  method DecodeRecord(s: bytes) returns (r: Option<Report>)
    ensures r == if Decode(s).Some? then Some(Decode(s).value.report) else None
  {
    var h := FetchHeader(s);
    if h.None? {
      return None;
    }
    var ok, names, o := FetchNames(s, 20, h.value.mc);
    if !ok {
      return None;
    }
    r := FetchTail(s, o, h.value.sig, h.value.fault, names);
  }

  /** The frame count and the frames. */
  method FetchTail(s: bytes, o: nat, sig: int, fault: nat, names: seq<bytes>) returns (r: Option<Report>)
    requires o <= |s|
    ensures var d := Frames(sig, fault, names, s[o..]);
            r == if d.Some? then Some(d.value.report) else None
  {
    if o + 2 > |s| {
      return None;
    }
    var fc := Fetch(s, o, 2);
    assert s[o..][..2] == s[o..o + 2] && s[o..][2..] == s[o + 2..];
    if fc > MAX_FRAMES || o + 2 + fc * 10 > |s| {
      return None;
    }
    var frames := FetchFrames(s, o + 2, fc, |names|);
    return Some(Report(sig, fault, names, frames));
  }
}
