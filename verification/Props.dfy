/**
 Properties and the packed blob that carries them in a ring slot: the packer,
 the one blob reader, the unpacker, and the key filters used by the scrub.
 */
module Props {
  import opened Bytes

  const MAX_PROPS: nat := 24
  const KEY_MAX: nat := 47
  const VAL_MAX: nat := 191

  const T_STR: byte := 0
  const T_DOUBLE: byte := 1
  const T_INT: byte := 2
  const T_BOOL: byte := 3
  const PK_GROUP: byte := 4
  const PK_RAWJSON: byte := 5

  // ---------------------------------------------------------- packed entries

  datatype Entry = Entry(tag: byte, key: bytes, val: bytes) {
    predicate Fits() {
      |key| <= 255 && |val| <= 0xFFFF
    }

    function Size(): nat {
      4 + |key| + |val|
    }

    predicate Scalar() {
      tag <= T_BOOL
    }
  }

  function Packed(e: Entry): (b: bytes)
    requires e.Fits()
    ensures |b| == e.Size()
  {
    [e.tag, |e.key|, |e.val| % 256, |e.val| / 256] + e.key + e.val
  }

  predicate AllFit(es: seq<Entry>) {
    forall i | 0 <= i < |es| :: es[i].Fits()
  }

  function PackedAll(es: seq<Entry>): bytes
    requires AllFit(es)
  {
    if es == [] then [] else Packed(es[0]) + PackedAll(es[1..])
  }

  function U16(lo: nat, hi: nat): nat {
    lo + 256 * hi
  }

  datatype Step = End | Next(entry: Entry, width: nat)

  /** The blob reader: the entry at the front, or the end of the readable part. */
  function BlobNext(b: bytes): (s: Step)
    ensures s.Next? ==> 4 <= s.width <= |b| && s.entry.Fits() && s.width == s.entry.Size()
  {
    if |b| < 4 then End
    else
      var kl: nat, vl: nat := b[1], U16(b[2], b[3]);
      if 4 + kl + vl > |b| then End
      else Next(Entry(b[0], b[4..4 + kl], b[4 + kl..4 + kl + vl]), 4 + kl + vl)
  }

  function Entries(b: bytes): (es: seq<Entry>)
    ensures AllFit(es)
    decreases |b|
  {
    var s := BlobNext(b);
    if s.End? then [] else [s.entry] + Entries(b[s.width..])
  }

  lemma NextOfPacked(e: Entry, rest: bytes)
    requires e.Fits()
    ensures BlobNext(Packed(e) + rest) == Next(e, e.Size())
    ensures (Packed(e) + rest)[e.Size()..] == rest
  {
    var b := Packed(e) + rest;
    assert U16(b[2], b[3]) == |e.val|;
    assert b[4..4 + |e.key|] == e.key;
    assert b[4 + |e.key|..4 + |e.key| + |e.val|] == e.val;
  }

  lemma ConsAppend<T>(a: seq<T>, b: seq<T>)
    requires a != []
    ensures a + b == [a[0]] + (a[1..] + b)
  {
  }

  lemma EntriesCons(e: Entry, rest: bytes)
    requires e.Fits()
    ensures Entries(Packed(e) + rest) == [e] + Entries(rest)
  {
    NextOfPacked(e, rest);
  }

  /** The blob law: reading a packed sequence gives the sequence back, then reads on. */
  lemma {:induction false} EntriesOfPacked(es: seq<Entry>, rest: bytes)
    requires AllFit(es)
    ensures Entries(PackedAll(es) + rest) == es + Entries(rest)
    decreases |es|
  {
    if es == [] {
      assert PackedAll(es) + rest == rest;
      assert es + Entries(rest) == Entries(rest);
    } else {
      ConcatAssoc(Packed(es[0]), PackedAll(es[1..]), rest);
      EntriesCons(es[0], PackedAll(es[1..]) + rest);
      EntriesOfPacked(es[1..], rest);
      ConsAppend(es, Entries(rest));
    }
  }

  lemma EntriesExactly(es: seq<Entry>)
    requires AllFit(es)
    ensures Entries(PackedAll(es)) == es
  {
    EntriesOfPacked(es, []);
    assert PackedAll(es) + [] == PackedAll(es);
    assert Entries([]) == [];
    assert es + [] == es;
  }

  lemma NextOfPrefix(b: bytes, k: nat)
    requires k <= |b| && BlobNext(b[..k]).Next?
    ensures BlobNext(b) == BlobNext(b[..k])
    ensures var w := BlobNext(b[..k]).width; b[..k][w..] == b[w..][..k - w]
  {
    var s := BlobNext(b[..k]);
    assert b[..k][4..4 + |s.entry.key|] == b[4..4 + |s.entry.key|];
    assert b[..k][4 + |s.entry.key|..s.width] == b[4 + |s.entry.key|..s.width];
  }

  lemma ConsPrefix<T>(x: T, a: seq<T>, b: seq<T>)
    requires a <= b
    ensures [x] + a <= [x] + b
  {
  }

  /** Cutting a blob anywhere loses entries only at the end. */
  lemma {:induction false} EntriesOfPrefix(b: bytes, k: nat)
    requires k <= |b|
    ensures Entries(b[..k]) <= Entries(b)
    decreases |b|
  {
    var s := BlobNext(b[..k]);
    if s.Next? {
      NextOfPrefix(b, k);
      var rest := b[s.width..];
      EntriesOfPrefix(rest, k - s.width);
      ConsPrefix(s.entry, Entries(rest[..k - s.width]), Entries(rest));
    }
  }

  lemma {:induction false} PackedAppend(a: seq<Entry>, b: seq<Entry>)
    requires AllFit(a) && AllFit(b)
    ensures AllFit(a + b)
    ensures PackedAll(a + b) == PackedAll(a) + PackedAll(b)
    decreases |a|
  {
    if a == [] {
      assert a + b == b;
    } else {
      assert (a + b)[1..] == a[1..] + b;
      PackedAppend(a[1..], b);
      ConcatAssoc(Packed(a[0]), PackedAll(a[1..]), PackedAll(b));
    }
  }

  function TotalSize(es: seq<Entry>): nat {
    if es == [] then 0 else es[0].Size() + TotalSize(es[1..])
  }

  lemma {:induction false} PackedSize(es: seq<Entry>)
    requires AllFit(es)
    ensures |PackedAll(es)| == TotalSize(es)
    decreases |es|
  {
    if es != [] {
      PackedSize(es[1..]);
    }
  }

  lemma {:induction false} TotalSizeAppend(a: seq<Entry>, b: seq<Entry>)
    ensures TotalSize(a + b) == TotalSize(a) + TotalSize(b)
    decreases |a|
  {
    if a == [] {
      assert a + b == b;
    } else {
      assert (a + b)[1..] == a[1..] + b;
      TotalSizeAppend(a[1..], b);
    }
  }

  /** The entries that fit one after the other in cap bytes; one that does not is skipped. */
  function Greedy(es: seq<Entry>, cap: nat): (r: seq<Entry>)
    ensures AllFit(r)
    ensures TotalSize(r) <= cap
  {
    if es == [] then []
    else if es[0].Fits() && es[0].Size() <= cap then [es[0]] + Greedy(es[1..], cap - es[0].Size())
    else Greedy(es[1..], cap)
  }

  lemma {:induction false} GreedyKeepsAll(es: seq<Entry>, cap: nat)
    requires AllFit(es) && TotalSize(es) <= cap
    ensures Greedy(es, cap) == es
    decreases |es|
  {
    if es != [] {
      GreedyKeepsAll(es[1..], cap - es[0].Size());
    }
  }

  lemma {:induction false} GreedySnoc(es: seq<Entry>, e: Entry, cap: nat)
    ensures Greedy(es + [e], cap)
         == Greedy(es, cap)
            + (if e.Fits() && e.Size() <= cap - TotalSize(Greedy(es, cap)) then [e] else [])
    decreases |es|
  {
    if es == [] {
      assert es + [e] == [e];
    } else {
      assert (es + [e])[1..] == es[1..] + [e];
      GreedySnoc(es[1..], e, if es[0].Fits() && es[0].Size() <= cap then cap - es[0].Size() else cap);
    }
  }

  // -------------------------------------------------------------- properties

  datatype PropVal = PStr(s: bytes) | PDouble(bits: bytes) | PInt(bits: bytes) | PBool(b: bool)

  datatype Prop = Prop(key: bytes, val: PropVal) {
    /** What the setters can produce: capped, NUL-terminated text and eight-byte numbers. */
    predicate Ok() {
      && |key| <= KEY_MAX && NulFree(key)
      && match val
         case PStr(s) => |s| <= VAL_MAX && NulFree(s)
         case PDouble(bits) => |bits| == 8
         case PInt(bits) => |bits| == 8
         case PBool(_) => true
    }
  }

  predicate PropsOk(ps: seq<Prop>) {
    |ps| <= MAX_PROPS && forall i | 0 <= i < |ps| :: ps[i].Ok()
  }

  /** The entry packed for one property. */
  function EntryOf(p: Prop): (e: Entry) {
    match p.val
    case PStr(s) => Entry(T_STR, p.key, s)
    case PDouble(bits) => Entry(T_DOUBLE, p.key, bits)
    case PInt(bits) => Entry(T_INT, p.key, bits)
    case PBool(b) => Entry(T_BOOL, p.key, [if b then 1 else 0])
  }

  function EntriesOf(ps: seq<Prop>): (es: seq<Entry>)
    ensures |es| == |ps|
    ensures forall i | 0 <= i < |ps| :: es[i] == EntryOf(ps[i])
  {
    seq(|ps|, i requires 0 <= i < |ps| => EntryOf(ps[i]))
  }

  function Capped(s: bytes, cap: nat): bytes {
    if |s| < cap then s else s[..cap]
  }

  const ZERO8: bytes := [0, 0, 0, 0, 0, 0, 0, 0]

  /** The property read from a scalar entry, with the unpacker's caps and defaults. */
  function PropOf(e: Entry): (p: Prop)
    requires e.Scalar()
  {
    Prop(Capped(e.key, KEY_MAX),
         if e.tag == T_STR then PStr(Capped(e.val, VAL_MAX))
         else if e.tag == T_DOUBLE then PDouble(if |e.val| == 8 then e.val else ZERO8)
         else if e.tag == T_INT then PInt(if |e.val| == 8 then e.val else ZERO8)
         else PBool(|e.val| >= 1 && e.val[0] != 0))
  }

  lemma PropOfEntry(p: Prop)
    requires p.Ok()
    ensures EntryOf(p).Fits() && EntryOf(p).Scalar() && PropOf(EntryOf(p)) == p
  {
  }

  function Scalars(es: seq<Entry>): seq<Prop> {
    if es == [] then []
    else if es[0].Scalar() then [PropOf(es[0])] + Scalars(es[1..])
    else Scalars(es[1..])
  }

  function Others(es: seq<Entry>): (r: seq<Entry>)
    ensures AllFit(es) ==> AllFit(r)
    ensures forall i | 0 <= i < |r| :: !r[i].Scalar() && r[i] in es
  {
    if es == [] then []
    else if es[0].Scalar() then Others(es[1..])
    else [es[0]] + Others(es[1..])
  }

  function Take(ps: seq<Prop>, n: nat): seq<Prop> {
    if |ps| <= n then ps else ps[..n]
  }

  // ------------------------------------------------- packing into the buffer

  /** Write one entry at off if it fits below cap; anything outside it stays as it was. */
  method PackOne(buf: array<byte>, off: nat, cap: nat, e: Entry) returns (n: nat)
    requires off <= cap <= buf.Length
    modifies buf
    ensures n == if e.Fits() && e.Size() <= cap - off then e.Size() else 0
    ensures n > 0 ==> buf[..off + n] == old(buf[..off]) + Packed(e)
    ensures n == 0 ==> buf[..] == old(buf[..])
    ensures buf[off + n..] == old(buf[off + n..])
  {
    var total := 4 + |e.key| + |e.val|;
    if |e.key| > 255 || |e.val| > 0xFFFF || total > cap - off {
      return 0;
    }
    ghost var p := Packed(e);
    buf[off] := e.tag;
    buf[off + 1] := |e.key|;
    buf[off + 2] := |e.val| % 256;
    buf[off + 3] := |e.val| / 256;
    forall i | 0 <= i < |e.key| {
      buf[off + 4 + i] := e.key[i];
    }
    forall i | 0 <= i < |e.val| {
      buf[off + 4 + |e.key| + i] := e.val[i];
    }
    n := total;
    assert forall i | 0 <= i < n :: buf[off + i] == p[i];
  }

  /** Behind before, the first i entries are packed as far as they fit in room bytes. */
  ghost predicate PackedSoFar(es: seq<Entry>, i: nat, room: nat, before: bytes, written: bytes) {
    && i <= |es| && written == before + PackedAll(Greedy(es[..i], room))
    && |written| == |before| + PackedSizeAt(es, i, room) <= |before| + room
  }

  /** Packing entries from an offset on writes exactly the greedily fitting ones, in order. */
  method PackEntries(es: seq<Entry>, buf: array<byte>, start: nat, cap: nat) returns (off: nat)
    requires start <= cap <= buf.Length
    modifies buf
    ensures start <= off <= cap && off == start + TotalSize(Greedy(es, cap - start))
    ensures buf[..off] == old(buf[..start]) + PackedAll(Greedy(es, cap - start))
    ensures buf[off..] == old(buf[off..])
  {
    off := start;
    ghost var before := buf[..start];
    var i := 0;
    assert es[..0] == [] && before + [] == before;
    while i < |es|
      invariant start <= off <= cap && PackedSoFar(es, i, cap - start, before, buf[..off])
      invariant buf[off..] == old(buf[off..])
    {
      off := PackNext(es, i, buf, off, cap, before);
      i := i + 1;
    }
    assert es[..i] == es;
  }

  method PackNext(es: seq<Entry>, i: nat, buf: array<byte>, off: nat, cap: nat, ghost before: bytes) returns (next: nat)
    requires i < |es| && |before| <= off <= cap <= buf.Length
    requires PackedSoFar(es, i, cap - |before|, before, buf[..off])
    modifies buf
    ensures off <= next <= cap && PackedSoFar(es, i + 1, cap - |before|, before, buf[..next])
    ensures buf[next..] == old(buf[next..])
  {
    PackStep(es, i, cap - |before|, before);
    var n := PackOne(buf, off, cap, es[i]);
    next := off + n;
    assert n == 0 ==> buf[..next] == old(buf[..off]);
  }

  function PackedSizeAt(es: seq<Entry>, i: nat, room: nat): nat
    requires i <= |es|
  {
    TotalSize(Greedy(es[..i], room))
  }

  /** The bytes that entry i takes when those before it are packed, 0 if it does not fit. */
  function Fitting(es: seq<Entry>, i: nat, room: nat): nat
    requires i < |es|
  {
    if es[i].Fits() && es[i].Size() <= room - PackedSizeAt(es, i, room) then es[i].Size() else 0
  }

  lemma PackStep(es: seq<Entry>, i: nat, room: nat, before: bytes)
    requires i < |es|
    ensures var done := before + PackedAll(Greedy(es[..i], room));
            && |done| == |before| + TotalSize(Greedy(es[..i], room)) <= |before| + room
            && PackedSizeAt(es, i + 1, room) == PackedSizeAt(es, i, room) + Fitting(es, i, room)
            && before + PackedAll(Greedy(es[..i + 1], room))
               == if Fitting(es, i, room) > 0 then done + Packed(es[i]) else done
  {
    var g, e := Greedy(es[..i], room), es[i];
    assert es[..i + 1] == es[..i] + [e];
    GreedySnoc(es[..i], e, room);
    PackedSize(g);
    TotalSizeAppend(g, [e]);
    assert [e][1..] == [] && TotalSize([e]) == e.Size();
    if e.Fits() && e.Size() <= room - TotalSize(g) {
      PackedAppend(g, [e]);
      assert PackedAll([e]) == Packed(e) + PackedAll([e][1..]) == Packed(e);
      ConcatAssoc(before, PackedAll(g), Packed(e));
    } else {
      assert g + [] == g;
    }
  }

  /** Packing a property set at the front of a buffer. */
  method PackProps(ps: seq<Prop>, buf: array<byte>, cap: nat) returns (off: nat)
    requires cap <= buf.Length
    modifies buf
    ensures off <= cap
    ensures buf[..off] == PackedAll(Greedy(EntriesOf(ps), cap))
    ensures buf[off..] == old(buf[off..])
  {
    off := PackEntries(EntriesOf(ps), buf, 0, cap);
    assert old(buf[..0]) == [];
  }

  /** One entry read: its scalar joins those read before. */
  lemma UnpackStep(rest: bytes, ps: seq<Prop>)
    requires BlobNext(rest).Next?
    ensures var s := BlobNext(rest);
            ps + Scalars(Entries(rest))
              == (if s.entry.Scalar() then ps + [PropOf(s.entry)] else ps) + Scalars(Entries(rest[s.width..]))
  {
    var s := BlobNext(rest);
    var more := Entries(rest[s.width..]);
    assert Entries(rest) == [s.entry] + more;
    assert Entries(rest)[1..] == more;
    if s.entry.Scalar() {
      SnocAssoc(ps, PropOf(s.entry), Scalars(more));
    }
  }

  /** The unpacker's loop: the first MAX_PROPS scalars of the blob. The rest is what lies between
      the cursor and the end. */
  method UnpackProps(blob: bytes) returns (ps: seq<Prop>)
    ensures ps == Take(Scalars(Entries(blob)), MAX_PROPS)
  {
    ps := [];
    var rest := blob;
    ghost var all := Scalars(Entries(blob));
    while |ps| < MAX_PROPS
      invariant all == ps + Scalars(Entries(rest)) && |ps| <= MAX_PROPS
      decreases |rest|
    {
      var s := BlobNext(rest);
      if s.End? {
        return;
      }
      UnpackStep(rest, ps);
      rest := rest[s.width..];
      if s.entry.Scalar() {
        ps := ps + [PropOf(s.entry)];
      }
    }
  }

  lemma {:induction false} ScalarsOfEntries(ps: seq<Prop>)
    requires forall i | 0 <= i < |ps| :: ps[i].Ok()
    ensures Scalars(EntriesOf(ps)) == ps
    decreases |ps|
  {
    if ps != [] {
      PropOfEntry(ps[0]);
      assert EntriesOf(ps)[1..] == EntriesOf(ps[1..]);
      ScalarsOfEntries(ps[1..]);
    }
  }

  /** The properties that fit one after the other in cap bytes. */
  function GreedyProps(ps: seq<Prop>, cap: nat): (r: seq<Prop>)
    ensures |r| <= |ps|
    ensures (forall i | 0 <= i < |ps| :: ps[i].Ok()) ==> forall i | 0 <= i < |r| :: r[i].Ok()
  {
    if ps == [] then []
    else
      var e := EntryOf(ps[0]);
      if e.Fits() && e.Size() <= cap then [ps[0]] + GreedyProps(ps[1..], cap - e.Size())
      else GreedyProps(ps[1..], cap)
  }

  lemma {:induction false} GreedyOfProps(ps: seq<Prop>, cap: nat)
    ensures Greedy(EntriesOf(ps), cap) == EntriesOf(GreedyProps(ps, cap))
    decreases |ps|
  {
    if ps != [] {
      var e := EntryOf(ps[0]);
      assert EntriesOf(ps)[0] == e;
      assert EntriesOf(ps)[1..] == EntriesOf(ps[1..]);
      if e.Fits() && e.Size() <= cap {
        GreedyOfProps(ps[1..], cap - e.Size());
      } else {
        GreedyOfProps(ps[1..], cap);
      }
    }
  }

  /** The property law: unpacking a packed set gives exactly the items that fitted, in order. */
  lemma UnpackOfPack(ps: seq<Prop>, cap: nat)
    requires PropsOk(ps)
    ensures Take(Scalars(Entries(PackedAll(Greedy(EntriesOf(ps), cap)))), MAX_PROPS) == GreedyProps(ps, cap)
  {
    GreedyOfProps(ps, cap);
    EntriesExactly(Greedy(EntriesOf(ps), cap));
    ScalarsOfEntries(GreedyProps(ps, cap));
  }

  // ------------------------------------------------------------- key filters

  function Without(ps: seq<Prop>, key: bytes): (r: seq<Prop>)
    ensures |r| <= |ps|
    ensures forall i | 0 <= i < |r| :: r[i].key != key && r[i] in ps
  {
    if ps == [] then []
    else if ps[0].key == key then Without(ps[1..], key)
    else [ps[0]] + Without(ps[1..], key)
  }

  lemma Shift<T>(r: seq<T>, i: nat)
    requires i < |r|
    ensures (r[..i] + r[i + 1..])[..i] == r[..i]
    ensures (r[..i] + r[i + 1..])[i..] == r[i + 1..]
    ensures r[..i + 1] == r[..i] + [r[i]]
    ensures r[i..] == [r[i]] + r[i + 1..]
  {
  }

  lemma SnocAssoc<T>(a: seq<T>, x: T, b: seq<T>)
    ensures (a + [x]) + b == a + ([x] + b)
  {
  }

  /** Removing a key shifts later items down and removes every occurrence. */
  method RemoveKey(ps: seq<Prop>, key: bytes) returns (r: seq<Prop>)
    ensures r == Without(ps, key)
  {
    r := ps;
    var i := 0;
    while i < |r|
      invariant 0 <= i <= |r|
      invariant Without(ps, key) == r[..i] + Without(r[i..], key)
      decreases |r| - i
    {
      Shift(r, i);
      assert r[i..][1..] == r[i + 1..];
      SnocAssoc(r[..i], r[i], Without(r[i + 1..], key));
      if r[i].key == key {
        r := r[..i] + r[i + 1..];
      } else {
        i := i + 1;
      }
    }
    assert r[..i] == r && r[i..] == [];
  }

  function WithoutAll(ps: seq<Prop>, keys: seq<bytes>): seq<Prop>
    decreases |keys|
  {
    if keys == [] then ps else WithoutAll(Without(ps, keys[0]), keys[1..])
  }

  /** The items whose key is not listed, in order. */
  function Allowed(ps: seq<Prop>, keys: seq<bytes>): seq<Prop> {
    if ps == [] then []
    else if ps[0].key in keys then Allowed(ps[1..], keys)
    else [ps[0]] + Allowed(ps[1..], keys)
  }

  lemma {:induction false} AllowedSplit(ps: seq<Prop>, keys: seq<bytes>)
    requires keys != []
    ensures Allowed(ps, keys) == Allowed(Without(ps, keys[0]), keys[1..])
    decreases |ps|
  {
    if ps != [] {
      AllowedSplit(ps[1..], keys);
      assert keys == [keys[0]] + keys[1..];
      var w := Without(ps, keys[0]);
      if ps[0].key != keys[0] {
        assert w[0] == ps[0] && w[1..] == Without(ps[1..], keys[0]);
      }
    }
  }

  /** Removing the listed keys one by one keeps exactly the items with other keys. */
  lemma {:induction false} WithoutAllIsAllowed(ps: seq<Prop>, keys: seq<bytes>)
    ensures WithoutAll(ps, keys) == Allowed(ps, keys)
    decreases |keys|
  {
    if keys == [] {
      AllowedNothing(ps);
    } else {
      AllowedSplit(ps, keys);
      WithoutAllIsAllowed(Without(ps, keys[0]), keys[1..]);
    }
  }

  lemma {:induction false} AllowedNothing(ps: seq<Prop>)
    ensures Allowed(ps, []) == ps
    decreases |ps|
  {
    if ps != [] {
      AllowedNothing(ps[1..]);
    }
  }

  method ApplyDenylist(ps: seq<Prop>, keys: seq<bytes>) returns (r: seq<Prop>)
    ensures r == Allowed(ps, keys)
  {
    r := ps;
    var i := 0;
    assert keys[0..] == keys;
    while i < |keys|
      invariant 0 <= i <= |keys|
      invariant WithoutAll(ps, keys) == WithoutAll(r, keys[i..])
    {
      assert keys[i..][1..] == keys[i + 1..];
      r := RemoveKey(r, keys[i]);
      i := i + 1;
    }
    WithoutAllIsAllowed(ps, keys);
  }
}
