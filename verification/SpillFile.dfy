/**
 The offline spill file: one serialized batch per line, oldest first, bounded
 in bytes. A missing file and an empty one are the same thing to the program.
 */
module SpillFile {
  import opened Bytes

  const MAX_BYTES: nat := 8 * 1024 * 1024

  predicate OneLine(l: bytes) {
    l != [] && LF !in l
  }

  /** The file ends at a record boundary. */
  predicate Terminated(f: bytes) {
    f == [] || f[|f| - 1] == LF
  }

  function NextLf(f: bytes): (i: nat)
    ensures i <= |f|
    ensures i < |f| ==> f[i] == LF
    ensures LF !in f[..i]
  {
    if f == [] || f[0] == LF then 0
    else
      var i := 1 + NextLf(f[1..]);
      assert f[..i] == [f[0]] + f[1..][..i - 1];
      i
  }

  /** The complete, non-empty lines; bytes after the last newline are a torn write. */
  function Lines(f: bytes): (ls: seq<bytes>)
    decreases |f|
  {
    var i := NextLf(f);
    if i == |f| then []
    else FirstLine(f, i) + Lines(f[i + 1..])
  }

  function FirstLine(f: bytes, i: nat): seq<bytes>
    requires i <= |f|
  {
    if i == 0 then [] else [f[..i]]
  }

  lemma {:induction false} LinesAreWhole(f: bytes)
    ensures forall i | 0 <= i < |Lines(f)| :: OneLine(Lines(f)[i])
    decreases |f|
  {
    var i := NextLf(f);
    if i < |f| {
      LinesAreWhole(f[i + 1..]);
    }
  }

  function Unlines(ls: seq<bytes>): bytes {
    if ls == [] then [] else Unlines(ls[..|ls| - 1]) + (ls[|ls| - 1] + [LF])
  }

  /** The events that the lines stand for, each counted by count. */
  function Total(ls: seq<bytes>, count: bytes -> nat): nat {
    if ls == [] then 0 else count(ls[0]) + Total(ls[1..], count)
  }

  lemma {:induction false} TotalAppend(a: seq<bytes>, b: seq<bytes>, count: bytes -> nat)
    ensures Total(a + b, count) == Total(a, count) + Total(b, count)
    decreases |a|
  {
    if a == [] {
      assert a + b == b;
    } else {
      assert (a + b)[1..] == a[1..] + b;
      TotalAppend(a[1..], b, count);
    }
  }

  lemma TotalOne(l: bytes, count: bytes -> nat)
    ensures Total([l], count) == count(l)
  {
    assert [l][1..] == [];
  }

  lemma {:induction false} NextLfAppend(a: bytes, b: bytes)
    requires NextLf(a) < |a|
    ensures NextLf(a + b) == NextLf(a)
    decreases |a|
  {
    assert (a + b)[0] == a[0];
    if a[0] != LF {
      assert (a + b)[1..] == a[1..] + b;
      NextLfAppend(a[1..], b);
    }
  }

  lemma {:induction false} NextLfBefore(f: bytes, k: nat)
    requires k < |f| && f[k] == LF
    ensures NextLf(f) <= k
    decreases k
  {
    if f[0] != LF {
      NextLfBefore(f[1..], k - 1);
    }
  }

  lemma {:induction false} NextLfPast(f: bytes, g: bytes)
    requires LF !in f
    ensures NextLf(f + g) == |f| + NextLf(g)
    decreases |f|
  {
    if f == [] {
      assert f + g == g;
    } else {
      assert (f + g)[1..] == f[1..] + g;
      NextLfPast(f[1..], g);
    }
  }

  /** Lines of a file extended at a record boundary. */
  lemma {:induction false} LinesAppend(a: bytes, b: bytes)
    requires Terminated(a)
    ensures Lines(a + b) == Lines(a) + Lines(b)
    decreases |a|
  {
    if a == [] {
      NothingBefore(a, b);
      assert Lines(a) == [];
    } else {
      var i := BoundaryAhead(a);
      LinesAppend(a[i + 1..], b);
      LinesAppendStep(a, b);
    }
  }

  /** A terminated file that is not empty has a first newline, behind which it is terminated. */
  lemma BoundaryAhead(a: bytes) returns (i: nat)
    requires Terminated(a) && a != []
    ensures i == NextLf(a) < |a| && Terminated(a[i + 1..])
  {
    NextLfBefore(a, |a| - 1);
    i := NextLf(a);
  }

  lemma {:induction false} LinesAppendStep(a: bytes, b: bytes)
    requires NextLf(a) < |a|
    requires var rest := a[NextLf(a) + 1..]; Lines(rest + b) == Lines(rest) + Lines(b)
    ensures Lines(a + b) == Lines(a) + Lines(b)
  {
    var i := NextLf(a);
    LinesBehindFirst(a, b);
    ConcatAssoc(FirstLine(a, i), Lines(a[i + 1..]), Lines(b));
  }

  lemma {:induction false} LinesBehindFirst(a: bytes, b: bytes)
    requires NextLf(a) < |a|
    ensures Lines(a + b) == FirstLine(a, NextLf(a)) + Lines(a[NextLf(a) + 1..] + b)
  {
    var i := NextLf(a);
    NextLfAppend(a, b);
    CutAppend(a, b, i);
    CutAppend(a, b, i + 1);
  }

  lemma LinesOfRecord(body: bytes)
    requires OneLine(body)
    ensures Lines(body + [LF]) == [body]
  {
    var r := body + [LF];
    var i := NextLf(r);
    NextLfPast(body, [LF]);
    assert r[..|body|] == body;
    assert r[i + 1..] == [];
  }

  lemma LinesOfNothing()
    ensures Lines([LF]) == [] && Lines([]) == []
  {
    assert [LF][1..] == [];
  }

  lemma LinesTorn(f: bytes)
    requires LF !in f
    ensures Lines(f) == []
  {
  }

  /** The newest line of the file. */
  predicate EndsWith(f: bytes, line: bytes) {
    Lines(f) != [] && Lines(f)[|Lines(f)| - 1] == line
  }

  /** Appending one record at a boundary appends one line. */
  lemma SpillAppends(f: bytes, body: bytes, count: bytes -> nat)
    requires Terminated(f) && OneLine(body)
    ensures Terminated(f + body + [LF])
    ensures Lines(f + body + [LF]) == Lines(f) + [body] && EndsWith(f + body + [LF], body)
    ensures Total(Lines(f + body + [LF]), count) == Total(Lines(f), count) + count(body)
  {
    ConcatAssoc(f, body, [LF]);
    LinesAppend(f, body + [LF]);
    LinesOfRecord(body);
    TotalAppend(Lines(f), [body], count);
    TotalOne(body, count);
  }

  /** What a torn write left after the last newline. */
  function Tail(f: bytes): (t: bytes)
    ensures LF !in t
    decreases |f|
  {
    var i := NextLf(f);
    if i == |f| then
      assert f[..i] == f;
      f
    else Tail(f[i + 1..])
  }

  lemma {:induction false} TailTerminated(f: bytes)
    ensures Tail(f) == [] <==> Terminated(f)
    decreases |f|
  {
    if f != [] && f[|f| - 1] == LF {
      NextLfBefore(f, |f| - 1);
    }
    if NextLf(f) < |f| {
      TailTerminated(f[NextLf(f) + 1..]);
    }
  }

  /** On any file whatever, an appended record runs on from the torn tail: the new line is the
      body itself, and is counted as the body, when the file ends at a boundary; otherwise it is
      one merged line. */
  lemma {:induction false} SpillMergesTornTail(f: bytes, body: bytes)
    requires OneLine(body)
    ensures Lines(f + body + [LF]) == Lines(f) + [Tail(f) + body]
    ensures Tail(f) + body == body <==> Terminated(f)
    decreases |f|
  {
    TailTerminated(f);
    NothingBefore(Tail(f), body);
    var i := NextLf(f);
    if i == |f| {
      LinesOfRecord(f + body);
      assert [] + [Tail(f) + body] == [f + body];
    } else {
      var rest := f[i + 1..];
      SkipFirstLine(f, body, i);
      SpillMergesTornTail(rest, body);
      ConcatAssoc(FirstLine(f, i), Lines(rest), [Tail(rest) + body]);
    }
  }

  lemma NothingBefore(a: bytes, b: bytes)
    ensures a + b == b <==> a == []
  {
    assert a + b == b ==> |a| == 0;
    assert [] + b == b;
  }

  lemma SkipFirstLine(f: bytes, body: bytes, i: nat)
    requires i == NextLf(f) < |f|
    ensures var g := f + body + [LF];
            NextLf(g) == i && g[..i] == f[..i] && g[i + 1..] == f[i + 1..] + body + [LF]
  {
    ConcatAssoc(f, body, [LF]);
    NextLfAppend(f, body + [LF]);
    CutAppend(f, body + [LF], i);
    CutAppend(f, body + [LF], i + 1);
    ConcatAssoc(f[i + 1..], body, [LF]);
  }

  lemma CutAppend(a: bytes, b: bytes, n: nat)
    requires n <= |a|
    ensures (a + b)[..n] == a[..n] && (a + b)[n..] == a[n..] + b
  {
  }

  lemma {:induction false} UnlinesInverse(ls: seq<bytes>)
    requires forall i | 0 <= i < |ls| :: OneLine(ls[i])
    ensures Terminated(Unlines(ls)) && Lines(Unlines(ls)) == ls
    decreases |ls|
  {
    if ls == [] {
      LinesOfNothing();
    } else {
      var init, last := ls[..|ls| - 1], ls[|ls| - 1];
      UnlinesInverse(init);
      LinesAppend(Unlines(init), last + [LF]);
      LinesOfRecord(last);
      assert ls == init + [last];
    }
  }

  /** The text of some last lines of a file is no longer than the file. */
  lemma UnlinesFits(f: bytes, k: nat)
    requires k <= |Lines(f)|
    ensures |Unlines(Lines(f)[k..])| <= |f|
  {
    LinesFit(f);
    UnlinesTail(Lines(f), k);
  }

  function TextSize(ls: seq<bytes>): nat {
    if ls == [] then 0 else |ls[0]| + 1 + TextSize(ls[1..])
  }

  lemma {:induction false} UnlinesSize(ls: seq<bytes>)
    ensures |Unlines(ls)| == TextSize(ls)
    decreases |ls|
  {
    if ls != [] {
      var init, last := ls[..|ls| - 1], ls[|ls| - 1];
      UnlinesSize(init);
      TextSizeSnoc(init, last);
      assert ls == init + [last];
    }
  }

  lemma {:induction false} TextSizeSnoc(ls: seq<bytes>, l: bytes)
    ensures TextSize(ls + [l]) == TextSize(ls) + |l| + 1
    decreases |ls|
  {
    if ls == [] {
      assert ls + [l] == [l] && [l][1..] == [];
    } else {
      assert (ls + [l])[1..] == ls[1..] + [l];
      TextSizeSnoc(ls[1..], l);
    }
  }

  lemma {:induction false} TextSizeTail(ls: seq<bytes>, k: nat)
    requires k <= |ls|
    ensures TextSize(ls[k..]) <= TextSize(ls)
    decreases k
  {
    if k == 0 {
      assert ls[0..] == ls;
    } else {
      assert ls[1..][k - 1..] == ls[k..];
      TextSizeTail(ls[1..], k - 1);
    }
  }

  lemma UnlinesTail(ls: seq<bytes>, k: nat)
    requires k <= |ls|
    ensures |Unlines(ls[k..])| <= TextSize(ls)
  {
    UnlinesSize(ls[k..]);
    TextSizeTail(ls, k);
  }

  lemma {:induction false} LinesFit(f: bytes)
    ensures TextSize(Lines(f)) <= |f|
    decreases |f|
  {
    var i := NextLf(f);
    if i < |f| {
      var rest := f[i + 1..];
      LinesFit(rest);
      if i > 0 {
        assert ([f[..i]] + Lines(rest))[1..] == Lines(rest);
      } else {
        assert [] + Lines(rest) == Lines(rest);
      }
    }
  }

  /** What was done to the lines of a file: the oldest k dropped, or one appended. */
  datatype Spool = Opened | Drop(before: Spool, k: nat) | Append(before: Spool, line: bytes)

  /** The lines that are left. */
  function LeftOf(s: Spool, lines0: seq<bytes>): seq<bytes> {
    match s
    case Opened => lines0
    case Drop(before, k) => var ls := LeftOf(before, lines0); if k <= |ls| then ls[k..] else []
    case Append(before, line) => LeftOf(before, lines0) + [line]
  }

  /** The file holds the lines that its history leaves, within its byte limit. */
  ghost predicate FileOf(file: bytes, s: Spool, lines0: seq<bytes>, limit: nat) {
    Lines(file) == LeftOf(s, lines0) && |file| <= limit
  }

  lemma {:induction false} FileDrops(file: bytes, s: Spool, lines0: seq<bytes>, limit: nat, k: nat, next: bytes)
    requires FileOf(file, s, lines0, limit) && k <= |Lines(file)|
    requires Lines(next) == Lines(file)[k..] && |next| <= limit
    ensures FileOf(next, Drop(s, k), lines0, limit)
  {
  }

  lemma {:induction false} FileAppends(file: bytes, s: Spool, lines0: seq<bytes>, limit: nat, line: bytes, next: bytes)
    requires FileOf(file, s, lines0, limit)
    requires Lines(next) == Lines(file) + [line] && |next| <= limit
    ensures FileOf(next, Append(s, line), lines0, limit)
  {
  }

  /** The later history only drops lines. */
  predicate DropsFrom(a: Spool, b: Spool) {
    b == a || (b.Drop? && b.before == a)
  }

  function Appended(s: Spool): set<bytes> {
    match s
    case Opened => {}
    case Drop(before, _) => Appended(before)
    case Append(before, line) => Appended(before) + {line}
  }

  /** All lines that were ever in the file: those of the start, then those appended, in order. */
  function Journal(s: Spool, lines0: seq<bytes>): seq<bytes> {
    match s
    case Opened => lines0
    case Drop(before, _) => Journal(before, lines0)
    case Append(before, line) => Journal(before, lines0) + [line]
  }

  /** Over any history the lines left are the newest ones, in order: a first-in, first-out queue. */
  lemma {:induction false} LeftIsSuffix(s: Spool, lines0: seq<bytes>) returns (gone: nat)
    ensures gone <= |Journal(s, lines0)| && LeftOf(s, lines0) == Journal(s, lines0)[gone..]
  {
    match s
    case Opened =>
      gone := 0;
    case Drop(before, k) =>
      var g := LeftIsSuffix(before, lines0);
      gone := if k <= |LeftOf(before, lines0)| then g + k else |Journal(before, lines0)|;
    case Append(before, line) =>
      gone := LeftIsSuffix(before, lines0);
      assert Journal(s, lines0)[gone..] == Journal(before, lines0)[gone..] + [line];
  }

  /** A rewritten file: all lines but the first k, each terminated, and nothing else. */
  ghost predicate LinesLeft(lines: seq<bytes>, k: nat, file: bytes) {
    k <= |lines| && file == Unlines(lines[k..]) && Lines(file) == lines[k..] && Terminated(file)
  }

  /** The events of the first k lines. */
  function EventsIn(lines: seq<bytes>, k: nat, count: bytes -> nat): nat {
    if k <= |lines| then Total(lines[..k], count) else 0
  }

  lemma UnlinesSnoc(ls: seq<bytes>, l: bytes)
    ensures Unlines(ls + [l]) == Unlines(ls) + (l + [LF])
  {
    assert (ls + [l])[..|ls|] == ls;
  }

  /** A scan of buf stands at i, inside the line that begins at start. */
  predicate At(buf: bytes, start: nat, i: nat) {
    start <= i <= |buf| && Terminated(buf[..start]) && LF !in buf[start..i]
  }

  lemma AtNext(buf: bytes, start: nat, i: nat)
    requires At(buf, start, i) && i < |buf|
    ensures buf[i] != LF ==> At(buf, start, i + 1)
    ensures buf[i] == LF ==> At(buf, i + 1, i + 1)
  {
    if buf[i] == LF {
      assert buf[..i + 1][i] == LF;
    } else {
      assert buf[start..i + 1] == buf[start..i] + [buf[i]];
    }
  }

  /** Reaching a newline at i completes the line begun at start. */
  lemma LineStep(buf: bytes, start: nat, i: nat, count: bytes -> nat)
    requires At(buf, start, i) && i < |buf| && buf[i] == LF
    ensures i > start ==> Lines(buf[..i + 1]) == Lines(buf[..start]) + [buf[start..i]]
    ensures i > start ==> Total(Lines(buf[..i + 1]), count) == Total(Lines(buf[..start]), count) + count(buf[start..i])
    ensures i > start ==> OneLine(buf[start..i])
    ensures i == start ==> Lines(buf[..i + 1]) == Lines(buf[..start])
  {
    var line := buf[start..i];
    assert buf[..i + 1] == buf[..start] + (line + [LF]);
    LinesAppend(buf[..start], line + [LF]);
    if i > start {
      LinesOfRecord(line);
      TotalAppend(Lines(buf[..start]), [line], count);
      TotalOne(line, count);
    } else {
      assert line + [LF] == [LF];
      LinesOfNothing();
      assert Lines(buf[..start]) + [] == Lines(buf[..start]);
    }
  }

  /** Bytes past the last newline add no line. */
  lemma TornTailDropped(buf: bytes, start: nat)
    requires At(buf, start, |buf|)
    ensures Lines(buf) == Lines(buf[..start])
  {
    assert buf[start..|buf|] == buf[start..];
    assert buf == buf[..start] + buf[start..];
    LinesAppend(buf[..start], buf[start..]);
    LinesTorn(buf[start..]);
  }

  /** A recount stands at i, with the lines before start counted. */
  ghost predicate Counted(buf: bytes, start: nat, i: nat, count: bytes -> nat, total: nat) {
    At(buf, start, i) && total == Total(Lines(buf[..start]), count)
  }

  lemma CountStarts(buf: bytes, count: bytes -> nat)
    ensures Counted(buf, 0, 0, count, 0)
  {
    LinesOfNothing();
    assert buf[..0] == [];
  }

  lemma CountNext(buf: bytes, start: nat, i: nat, count: bytes -> nat, total: nat)
    requires Counted(buf, start, i, count, total) && i < |buf|
    ensures buf[i] != LF ==> Counted(buf, start, i + 1, count, total)
    ensures buf[i] == LF ==>
              Counted(buf, i + 1, i + 1, count, total + if i > start then count(buf[start..i]) else 0)
  {
    AtNext(buf, start, i);
    if buf[i] == LF {
      LineStep(buf, start, i, count);
    }
  }

  lemma CountEnds(buf: bytes, start: nat, count: bytes -> nat, total: nat)
    requires Counted(buf, start, |buf|, count, total)
    ensures total == Total(Lines(buf), count)
  {
    TornTailDropped(buf, start);
  }

  /** The recount loop over a buffer of lines. */
  method EventsInLines(buf: bytes, count: bytes -> nat) returns (total: nat)
    ensures total == Total(Lines(buf), count)
  {
    total := 0;
    var start, i := 0, 0;
    CountStarts(buf, count);
    while i < |buf|
      invariant Counted(buf, start, i, count, total)
    {
      CountNext(buf, start, i, count, total);
      if buf[i] == LF {
        if i > start {
          total := total + count(buf[start..i]);
        }
        start := i + 1;
      }
      i := i + 1;
    }
    CountEnds(buf, start, count, total);
  }

  /** Where to cut so that at most target bytes remain, at a line boundary or at the end. */
  method TrimPoint(f: bytes, target: nat) returns (drop: nat)
    requires |f| > target
    ensures 0 < drop <= |f| && |f| - drop <= target
    ensures drop == |f| || Terminated(f[..drop])
    ensures forall j | |f| - target <= j < drop - 1 :: f[j] != LF
  {
    drop := |f| - target;
    while drop < |f| && f[drop] != LF
      invariant |f| - target <= drop <= |f|
      invariant forall j | |f| - target <= j < drop :: f[j] != LF
    {
      drop := drop + 1;
    }
    if drop < |f| {
      drop := drop + 1;
      assert f[..drop][drop - 1] == LF;
    }
  }

  /** Cutting there drops only oldest whole lines. */
  lemma {:induction false} TrimDropsOldest(f: bytes, drop: nat, count: bytes -> nat)
    requires drop <= |f| && (drop == |f| || Terminated(f[..drop]))
    ensures Lines(f) == Lines(f[..drop]) + Lines(f[drop..])
    ensures Terminated(f) ==> Terminated(f[drop..])
    ensures Total(Lines(f), count) == Total(Lines(f[..drop]), count) + Total(Lines(f[drop..]), count)
  {
    LinesSplit(f, drop);
    TotalAppend(Lines(f[..drop]), Lines(f[drop..]), count);
  }

  lemma {:induction false} LinesSplit(f: bytes, drop: nat)
    requires drop <= |f| && (drop == |f| || Terminated(f[..drop]))
    ensures Lines(f) == Lines(f[..drop]) + Lines(f[drop..])
  {
    var a, b := f[..drop], f[drop..];
    assert f == a + b;
    if drop == |f| {
      assert a == f && b == [];
      LinesOfNothing();
      assert Lines(f) + [] == Lines(f);
    } else {
      LinesAppend(a, b);
    }
  }

  /** What is kept is at least as long as every suffix of whole lines that leaves room to spare. */
  ghost predicate KeepsMost(f: bytes, target: nat, kept: bytes) {
    forall j | 0 <= j < |f| && f[j] == LF && |f| - j - 1 < target :: |f| - j - 1 <= |kept|
  }

  /** Cut a file down to target bytes: oldest whole lines go, their events are counted. */
  method Trim(f: bytes, target: nat, count: bytes -> nat) returns (kept: bytes, lost: nat, ghost k: nat)
    requires Terminated(f) && |f| > target
    ensures Terminated(kept) && |kept| <= target && KeepsMost(f, target, kept)
    ensures k <= |Lines(f)| && Lines(kept) == Lines(f)[k..]
    ensures lost + Total(Lines(kept), count) == Total(Lines(f), count)
  {
    var drop := TrimPoint(f, target);
    TrimDropsOldest(f, drop, count);
    lost := EventsInLines(f[..drop], count);
    kept := f[drop..];
    k := |Lines(f[..drop])|;
  }

  lemma {:induction false} TotalSplit(ls: seq<bytes>, k: nat, count: bytes -> nat)
    requires k <= |ls|
    ensures Total(ls, count) == Total(ls[..k], count) + Total(ls[k..], count)
  {
    assert ls == ls[..k] + ls[k..];
    TotalAppend(ls[..k], ls[k..], count);
  }

  /** The lines before start are those gone, then those kept; keep is the text of the latter. */
  ghost predicate Scanned(buf: bytes, start: nat, gone: seq<bytes>, kept: seq<bytes>, keep: bytes) {
    start <= |buf| && Lines(buf[..start]) == gone + kept && keep == Unlines(kept)
  }

  /** A scan of buf stands at i, inside the line that begins at start. */
  ghost predicate Scan(buf: bytes, start: nat, i: nat, gone: seq<bytes>, kept: seq<bytes>, keep: bytes) {
    At(buf, start, i) && Scanned(buf, start, gone, kept, keep)
  }

  lemma ScanStarts(buf: bytes)
    ensures Scan(buf, 0, 0, [], [], [])
  {
    LinesOfNothing();
    assert buf[..0] == [];
  }

  lemma ScanOn(buf: bytes, start: nat, i: nat, gone: seq<bytes>, kept: seq<bytes>, keep: bytes)
    requires Scan(buf, start, i, gone, kept, keep) && i < |buf| && buf[i] != LF
    ensures Scan(buf, start, i + 1, gone, kept, keep)
  {
    AtNext(buf, start, i);
  }

  lemma ScanKeeps(buf: bytes, start: nat, i: nat, gone: seq<bytes>, kept: seq<bytes>, keep: bytes, count: bytes -> nat)
    requires Scanned(buf, start, gone, kept, keep) && At(buf, start, i) && start < i < |buf| && buf[i] == LF
    ensures Scanned(buf, i + 1, gone, kept + [buf[start..i]], keep + (buf[start..i] + [LF]))
  {
    LineStep(buf, start, i, count);
    UnlinesSnoc(kept, buf[start..i]);
    ConcatAssoc(gone, kept, [buf[start..i]]);
  }

  lemma ScanSettles(buf: bytes, start: nat, i: nat, gone: seq<bytes>, keep: bytes, count: bytes -> nat)
    requires Scanned(buf, start, gone, [], keep) && At(buf, start, i) && start < i < |buf| && buf[i] == LF
    ensures Scanned(buf, i + 1, gone + [buf[start..i]], [], keep)
    ensures Total(gone + [buf[start..i]], count) == Total(gone, count) + count(buf[start..i])
  {
    LineStep(buf, start, i, count);
    TotalAppend(gone, [buf[start..i]], count);
    TotalOne(buf[start..i], count);
    assert gone + [] == gone;
  }

  lemma ScanSkips(buf: bytes, start: nat, gone: seq<bytes>, kept: seq<bytes>, keep: bytes, count: bytes -> nat)
    requires Scanned(buf, start, gone, kept, keep) && At(buf, start, start) && start < |buf| && buf[start] == LF
    ensures Scanned(buf, start + 1, gone, kept, keep)
  {
    LineStep(buf, start, start, count);
  }

  lemma ScanEnds(buf: bytes, start: nat, gone: seq<bytes>, kept: seq<bytes>, keep: bytes)
    requires Scan(buf, start, |buf|, gone, kept, keep)
    ensures |gone| <= |Lines(buf)| && (kept == [] ==> |gone| == |Lines(buf)|)
    ensures Lines(buf)[..|gone|] == gone && keep == Unlines(Lines(buf)[|gone|..])
  {
    TornTailDropped(buf, start);
    assert Lines(buf)[|gone|..] == kept;
  }
}
