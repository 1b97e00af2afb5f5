/** The spill file on disk: capped appends, and the rewrite after a replay. */
module SpillStore {
  import opened Bytes
  import opened SpillFile
  import opened Delivery
  import opened Posting

  class Store {
    const clock: Clock
    const offline: bool
    const count: bytes -> nat

    var file: bytes

    /** What was done to the file's lines, and the rewrites of it. */
    ghost var spool: Spool
    ghost var replays: Rewrites

    /** What the file held at the start, and its byte limit. */
    ghost const lines0: seq<bytes>
    ghost const limit: nat

    /** The file holds the lines that its history leaves, within its byte limit. */
    ghost predicate Valid()
      reads this
    {
      FileOf(file, spool, lines0, limit) && limit >= MAX_BYTES
    }

    ghost function OnDisk(): nat
      reads this
    {
      Total(Lines(file), count)
    }

    /** The events that failed rewrites left to be settled again. */
    ghost function Duplicated(): nat
      reads this
    {
      Duplicates(replays, clock.world)
    }

    constructor (clock: Clock, offline: bool, count: bytes -> nat, file: bytes)
      ensures Valid() && this.clock == clock && this.offline == offline && this.count == count && this.file == file
      ensures spool == Opened && replays == NoRewrite && lines0 == Lines(file)
      ensures limit == if |file| > MAX_BYTES then |file| else MAX_BYTES
    {
      this.clock, this.offline, this.count, this.file := clock, offline, count, file;
      spool, replays, lines0 := Opened, NoRewrite, Lines(file);
      limit := if |file| > MAX_BYTES then |file| else MAX_BYTES;
    }

    // ---------------------------------------------------------------- append

    /** Keep the file within its byte cap by dropping the oldest whole lines; lost counts their
        events. */
    method EnforceCap(incoming: nat) returns (ok: bool, lost: nat, ghost k: nat)
      requires Terminated(file)
      modifies clock, this`file
      ensures Terminated(file) && OnDisk() + lost == old(OnDisk())
      ensures k <= |old(Lines(file))| && Lines(file) == old(Lines(file))[k..]
      ensures ok ==> |file| + incoming + 1 <= MAX_BYTES && KeepsMost(old(file), MAX_BYTES - incoming - 1, file)
      ensures !ok || |old(file)| + incoming + 1 <= MAX_BYTES ==> file == old(file) && lost == 0
      ensures !ok ==> incoming >= MAX_BYTES || clock.DiskFailed()
      ensures clock.looks >= old(clock.looks)
    {
      k, lost := 0, 0;
      assert Lines(file)[0..] == Lines(file);
      ok := incoming < MAX_BYTES;
      if ok && |file| + incoming + 1 > MAX_BYTES {
        ok, lost, k := TrimTo(if MAX_BYTES > incoming + 1 then MAX_BYTES - incoming - 1 else 0);
      }
    }

    /** Read the file, cut it, write it back. */
    method TrimTo(target: nat) returns (ok: bool, lost: nat, ghost k: nat)
      requires Terminated(file) && |file| > target
      modifies clock, this`file
      ensures Terminated(file) && OnDisk() + lost == old(OnDisk())
      ensures k <= |old(Lines(file))| && Lines(file) == old(Lines(file))[k..]
      ensures ok ==> |file| <= target && KeepsMost(old(file), target, file)
      ensures !ok ==> file == old(file) && lost == 0 && clock.DiskFailed()
      ensures clock.looks >= old(clock.looks)
    {
      k, lost := 0, 0;
      assert Lines(file)[0..] == Lines(file);
      var w := clock.Look();
      ok := w.disk;
      if ok {
        var kept, n;
        ghost var cut;
        kept, n, cut := Trim(file, target, count);
        w := clock.Look();
        ok := w.disk;
        if ok {
          file, lost, k := kept, n, cut;
        }
      }
    }

    /** Append one record. The file stays a byte-bounded queue of whole lines. */
    method Spill(body: bytes) returns (ok: bool, lost: nat)
      requires Valid() && Terminated(file) && (body != [] ==> OneLine(body))
      modifies clock, this`file, this`spool
      ensures Valid() && Terminated(file) && clock.looks >= old(clock.looks)
      ensures ok ==> offline && body != [] && |file| <= MAX_BYTES && EndsWith(file, body)
      ensures Appended(spool) == Appended(old(spool)) + if ok then {body} else {}
      ensures ok ==> spool.Append? && spool.line == body && DropsFrom(old(spool), spool.before)
      ensures !ok ==> DropsFrom(old(spool), spool)
      ensures !ok ==> !offline || body == [] || |body| >= MAX_BYTES || clock.DiskFailed()
      ensures !offline ==> file == old(file) && spool == old(spool) && lost == 0 && clock.looks == old(clock.looks)
      ensures OnDisk() + lost == old(OnDisk()) + if ok then count(body) else 0
    {
      ok, lost := PrepareSpill(|body|);
      if ok {
        AppendLine(body);
      }
    }

    /** A path, something to write, room made for it, and a file that opens. */
    method PrepareSpill(incoming: nat) returns (ok: bool, lost: nat)
      requires Valid() && Terminated(file)
      modifies clock, this`file, this`spool
      ensures Valid() && Terminated(file) && clock.looks >= old(clock.looks) && OnDisk() + lost == old(OnDisk())
      ensures ok ==> offline && incoming > 0 && |file| + incoming + 1 <= MAX_BYTES
      ensures DropsFrom(old(spool), spool) && Appended(spool) == Appended(old(spool))
      ensures !ok ==> !offline || incoming == 0 || incoming >= MAX_BYTES || clock.DiskFailed()
      ensures !offline ==> file == old(file) && spool == old(spool) && lost == 0 && clock.looks == old(clock.looks)
    {
      lost := 0;
      ok := offline && incoming > 0;
      if ok {
        var w := clock.Look();
        ok := w.disk;
        if ok {
          ok, lost := MakeRoom(incoming);
        }
        if ok {
          w := clock.Look();
          ok := w.disk;
        }
      }
    }

    /** The cap, as the history of the file sees it. */
    method MakeRoom(incoming: nat) returns (ok: bool, lost: nat)
      requires Valid() && Terminated(file)
      modifies clock, this`file, this`spool
      ensures Valid() && Terminated(file) && clock.looks >= old(clock.looks) && OnDisk() + lost == old(OnDisk())
      ensures DropsFrom(old(spool), spool) && Appended(spool) == Appended(old(spool))
      ensures ok ==> |file| + incoming + 1 <= MAX_BYTES
      ensures !ok ==> incoming >= MAX_BYTES || clock.DiskFailed()
    {
      ghost var before := file;
      ghost var k;
      ok, lost, k := EnforceCap(incoming);
      FileDrops(before, spool, lines0, limit, k, file);
      spool := Drop(spool, k);
    }

    method AppendLine(body: bytes)
      requires Valid() && Terminated(file) && OneLine(body) && |file| + |body| + 1 <= MAX_BYTES
      modifies this`file, this`spool
      ensures Valid() && Terminated(file) && EndsWith(file, body) && |file| == old(|file|) + |body| + 1
      ensures spool == Append(old(spool), body) && OnDisk() == old(OnDisk()) + count(body)
    {
      SpillAppends(file, body, count);
      FileAppends(file, spool, lines0, limit, body, file + body + [LF]);
      file := file + body + [LF];
      spool := Append(spool, body);
    }

    // --------------------------------------------------------------- rewrite

    /** The first k lines were to go; the look at decided whether they did. */
    ghost predicate Rewritten(file0: bytes, k: nat, before: Rewrites, at: nat)
      reads this
    {
      && replays == AndThen(before, at, EventsIn(Lines(file0), k, count))
      && if clock.world(at).disk then LinesLeft(Lines(file0), k, file) else file == file0
    }

    /** Replace the file by the kept lines, or leave it whole, as the next look decides. */
    method Rewrite(keep: bytes, ghost k: nat)
      requires Valid() && k <= |Lines(file)| && keep == Unlines(Lines(file)[k..])
      modifies clock, this`file, this`spool, this`replays
      ensures Valid() && clock.looks == old(clock.looks) + 1 && Appended(spool) == Appended(old(spool))
      ensures Rewritten(old(file), k, old(replays), old(clock.looks))
      ensures Duplicated() > old(Duplicated())
         <==> !clock.world(old(clock.looks)).disk && EventsIn(old(Lines(file)), k, count) > 0
      ensures Terminated(old(file)) ==> Terminated(file)
      ensures clock.world(old(clock.looks)).disk && k == |old(Lines(file))| ==> file == []
      ensures OnDisk() + EventsIn(old(Lines(file)), k, count) + old(Duplicated()) == old(OnDisk()) + Duplicated()
    {
      TotalSplit(Lines(file), k, count);
      replays := AndThen(replays, clock.looks, EventsIn(Lines(file), k, count));
      var w := clock.Look();
      if w.disk {
        LinesAreWhole(file);
        UnlinesInverse(Lines(file)[k..]);
        UnlinesFits(file, k);
        FileDrops(file, spool, lines0, limit, k, keep);
        spool := Drop(spool, k);
        file := keep;
      }
    }
  }
}
