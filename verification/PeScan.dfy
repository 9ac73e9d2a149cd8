/** Finding executables embedded in a document: a skipping search for MZ headers whose e_lfanew
    leads to a PE signature. */
module PeScan {
  import opened Common

  const MAX_HITS := 10
  const HEADER := 0x40
  const LFANEW_AT := 0x3C
  const LFANEW_LIMIT := 0x2000

  datatype Hit = Hit(offset: nat, machine: seq<Byte>)

  predicate MzAt(raw: seq<Byte>, i: nat) {
    i + 2 <= |raw| && raw[i] == 0x4D && raw[i + 1] == 0x5A
  }

  function Lfanew(raw: seq<Byte>, i: nat): nat
    requires i + HEADER < |raw|
  {
    var p := i + LFANEW_AT;
    raw[p] as int + 0x100 * raw[p + 1] as int + 0x1_0000 * raw[p + 2] as int + 0x100_0000 * raw[p + 3] as int
  }

  /** The header at `i` leads to a PE signature. */
  predicate PeBehind(raw: seq<Byte>, i: nat) {
    && i + HEADER < |raw|
    && 0 < Lfanew(raw, i) < LFANEW_LIMIT
    && var at := i + Lfanew(raw, i);
    && at + 4 <= |raw|
    && raw[at..at + 4] == [0x50, 0x45, 0, 0]
  }

  function HitAt(raw: seq<Byte>, i: nat): Hit
    requires PeBehind(raw, i)
  {
    var at := i + Lfanew(raw, i);
    Hit(i, if at + 6 <= |raw| then raw[at + 4..at + 6] else raw[at + 4..])
  }

  /** Every position from `i` on, one by one. */
  function Naive(raw: seq<Byte>, i: nat): seq<Hit>
    decreases if i < |raw| then |raw| - i else 0
  {
    if i >= |raw| then []
    else HitsAt(raw, i) + Naive(raw, i + 1)
  }

  function HitsAt(raw: seq<Byte>, i: nat): seq<Hit> {
    if MzAt(raw, i) && PeBehind(raw, i) then [HitAt(raw, i)] else []
  }

  predicate IsHit(raw: seq<Byte>, low: nat, hit: Hit) {
    low <= hit.offset && MzAt(raw, hit.offset) && PeBehind(raw, hit.offset) && hit == HitAt(raw, hit.offset)
  }

  ghost predicate AscendingHits(raw: seq<Byte>, hits: seq<Hit>, low: nat) {
    && (forall k :: 0 <= k < |hits| ==> IsHit(raw, low, hits[k]))
    && (forall k, m :: 0 <= k < m < |hits| ==> hits[k].offset < hits[m].offset)
  }

  /** The naive search reports real hits only, in ascending order. */
  lemma {:induction false} NaiveIsSound(raw: seq<Byte>, i: nat)
    ensures AscendingHits(raw, Naive(raw, i), i)
    decreases if i < |raw| then |raw| - i else 0
  {
    if i < |raw| {
      var rest := Naive(raw, i + 1);
      NaiveIsSound(raw, i + 1);
      HitsInFront(raw, i, rest);
    }
  }

  lemma HitsInFront(raw: seq<Byte>, i: nat, rest: seq<Hit>)
    requires AscendingHits(raw, rest, i + 1)
    ensures AscendingHits(raw, HitsAt(raw, i) + rest, i)
  {
    if MzAt(raw, i) && PeBehind(raw, i) {
      HitInFront(raw, i, rest);
    } else {
      assert HitsAt(raw, i) + rest == rest;
      forall k | 0 <= k < |rest| ensures IsHit(raw, i, rest[k]) {
        assert IsHit(raw, i + 1, rest[k]);
      }
    }
  }

  lemma HitInFront(raw: seq<Byte>, i: nat, rest: seq<Hit>)
    requires MzAt(raw, i) && PeBehind(raw, i) && AscendingHits(raw, rest, i + 1)
    ensures AscendingHits(raw, [HitAt(raw, i)] + rest, i)
  {
    var all := [HitAt(raw, i)] + rest;
    forall k | 1 <= k < |all| ensures IsHit(raw, i, all[k]) && all[k].offset > i {
      assert IsHit(raw, i + 1, rest[k - 1]);
    }
  }

  /** And it misses none. */
  lemma {:induction false} NaiveIsComplete(raw: seq<Byte>, i: nat, p: nat)
    requires i <= p && MzAt(raw, p) && PeBehind(raw, p)
    ensures HitAt(raw, p) in Naive(raw, i)
    decreases p - i
  {
    if i < p {
      NaiveIsComplete(raw, i + 1, p);
    }
  }

  // ---- what is reported, byte by byte

  /** An executable as a linker lays it out at `p`: the letters MZ, the little-endian offset `v` at
      0x3C, below 0x2000, and there the letters PE, two zeros and the two machine octets, of which
      the end of the data may cut off some. */
  predicate WrittenAt(raw: seq<Byte>, p: nat, v: nat, machine: seq<Byte>) {
    && At(raw, p, [0x4D, 0x5A]) && p + 0x40 < |raw|
    && 0 < v < 0x2000 && At(raw, p + 0x3C, [v % 256, v / 256, 0, 0])
    && At(raw, p + v, [0x50, 0x45, 0, 0]) && At(raw, p + v + 4, machine)
    && (|machine| == 2 || (|machine| < 2 && p + v + 4 + |machine| == |raw|))
  }

  lemma OffsetIsWritten(raw: seq<Byte>, p: nat, v: nat)
    requires p + 0x40 < |raw| && v < 0x2000
    ensures Lfanew(raw, p) == v <==> At(raw, p + 0x3C, [v % 256, v / 256, 0, 0])
  {
    var field := raw[p + 0x3C..p + 0x40];
    assert field[0] == raw[p + 0x3C] && field[1] == raw[p + 0x3D];
    assert field[2] == raw[p + 0x3E] && field[3] == raw[p + 0x3F];
  }

  lemma MzIsWritten(raw: seq<Byte>, p: nat)
    ensures MzAt(raw, p) <==> At(raw, p, [0x4D, 0x5A])
  {
    if p + 2 <= |raw| { assert raw[p..p + 2] == [raw[p], raw[p + 1]]; }
  }

  lemma HeaderIsWritten(raw: seq<Byte>, p: nat, v: nat, machine: seq<Byte>)
    ensures WrittenAt(raw, p, v, machine)
       <==> MzAt(raw, p) && PeBehind(raw, p) && Lfanew(raw, p) == v && HitAt(raw, p) == Hit(p, machine)
  {
    MzIsWritten(raw, p);
    if p + 0x40 < |raw| && v < 0x2000 { OffsetIsWritten(raw, p, v); }
    if p + v + 4 <= |raw| { MachineIsWritten(raw, p + v + 4, machine); }
  }

  lemma MachineIsWritten(raw: seq<Byte>, at: nat, machine: seq<Byte>)
    requires at <= |raw|
    ensures machine == (if at + 2 <= |raw| then raw[at..at + 2] else raw[at..])
       <==> At(raw, at, machine) && (|machine| == 2 || (|machine| < 2 && at + |machine| == |raw|))
  {
    assert raw[at..|raw|] == raw[at..];
  }

  /** The hits of the naive search are exactly the executables written somewhere in the data. */
  lemma HitsAreWritten(raw: seq<Byte>, p: nat, machine: seq<Byte>)
    ensures Hit(p, machine) in Naive(raw, 0) <==> exists v :: WrittenAt(raw, p, v, machine)
  {
    if Hit(p, machine) in Naive(raw, 0) {
      NaiveIsSound(raw, 0);
      var k :| 0 <= k < |Naive(raw, 0)| && Naive(raw, 0)[k] == Hit(p, machine);
      assert IsHit(raw, 0, Naive(raw, 0)[k]);
      HeaderIsWritten(raw, p, Lfanew(raw, p), machine);
    }
    if v :| WrittenAt(raw, p, v, machine) {
      HeaderIsWritten(raw, p, v, machine);
      NaiveIsComplete(raw, 0, p);
    }
  }

  lemma {:induction false} NothingBetween(raw: seq<Byte>, i: nat, j: nat)
    requires i <= j && forall k :: i <= k < j ==> !MzAt(raw, k)
    ensures Naive(raw, i) == Naive(raw, j)
    decreases j - i
  {
    if i < j {
      assert !MzAt(raw, i);
      NothingBetween(raw, i + 1, j);
    }
  }

  /** `raw.find(b"MZ", start)`. */
  method Find(raw: seq<Byte>, start: nat) returns (found: Option<nat>)
    ensures found.None? ==> forall k :: start <= k ==> !MzAt(raw, k)
    ensures found.Some? ==> start <= found.value && MzAt(raw, found.value)
                            && forall k :: start <= k < found.value ==> !MzAt(raw, k)
  {
    var i := start;
    while i + 2 <= |raw|
      invariant start <= i
      invariant forall k :: start <= k < i ==> !MzAt(raw, k)
    {
      if MzAt(raw, i) {
        return Some(i);
      }
      i := i + 1;
    }
    return None;
  }

  /** Nothing is lost by jumping over the Z. */
  lemma JumpOverMz(raw: seq<Byte>, i: nat)
    requires MzAt(raw, i)
    ensures Naive(raw, i) == HitsAt(raw, i) + Naive(raw, i + 2)
  {
    NothingBetween(raw, i + 1, i + 2);
  }

  /** The check of one MZ header. */
  method Check(raw: seq<Byte>, i: nat) returns (hits: seq<Hit>)
    requires MzAt(raw, i)
    ensures hits == HitsAt(raw, i)
  {
    hits := [];
    if i + HEADER < |raw| {
      var lfanew := Lfanew(raw, i);
      var at := i + lfanew;
      if 0 < lfanew < LFANEW_LIMIT && at + 4 <= |raw| && raw[at..at + 4] == [0x50, 0x45, 0, 0] {
        hits := [HitAt(raw, i)];
      }
    }
  }

  /** The scan jumps two bytes past every MZ and stops at ten hits, and still reports exactly the
      first ten positions the naive search reports. */
  method EmbeddedExecutables(raw: seq<Byte>) returns (hits: seq<Hit>)
    ensures hits == Take(Naive(raw, 0), 10)
  {
    hits := [];
    ghost var all := Naive(raw, 0);
    var idx := Find(raw, 0);
    SkipTo(raw, 0, idx);
    ghost var rest := From(raw, idx);
    while idx.Some? && |hits| < MAX_HITS
      invariant |hits| <= MAX_HITS && all == hits + rest && rest == From(raw, idx)
      invariant idx.Some? ==> MzAt(raw, idx.value)
      decreases if idx.Some? then |raw| - idx.value else 0
    {
      var i := idx.value;
      var more := Check(raw, i);
      idx := Find(raw, i + 2);
      rest := OneMz(raw, hits, i, more, rest, idx);
      hits := hits + more;
    }
    FirstHits(all, hits, rest);
  }

  lemma FirstHits(all: seq<Hit>, hits: seq<Hit>, rest: seq<Hit>)
    requires all == hits + rest && |hits| <= MAX_HITS && (rest == [] || |hits| == MAX_HITS)
    ensures hits == Take(all, MAX_HITS)
  {}

  /** The hits still to come when the search stands at `idx`. */
  ghost function From(raw: seq<Byte>, idx: Option<nat>): seq<Hit> {
    if idx.Some? then Naive(raw, idx.value) else []
  }

  /** One round of the scan: the header at `i`, then on to the next one. */
  lemma OneMz(raw: seq<Byte>, hits: seq<Hit>, i: nat, more: seq<Hit>, rest: seq<Hit>, next: Option<nat>)
      returns (later: seq<Hit>)
    requires MzAt(raw, i) && more == HitsAt(raw, i) && rest == Naive(raw, i)
    requires next.None? ==> forall k :: i + 2 <= k ==> !MzAt(raw, k)
    requires next.Some? ==> i + 2 <= next.value && forall k :: i + 2 <= k < next.value ==> !MzAt(raw, k)
    ensures later == From(raw, next) && hits + rest == hits + more + later
  {
    JumpOverMz(raw, i);
    SkipTo(raw, i + 2, next);
    later := From(raw, next);
    ConcatAssociates(hits, more, later);
  }

  lemma SkipTo(raw: seq<Byte>, start: nat, idx: Option<nat>)
    requires idx.None? ==> forall k :: start <= k ==> !MzAt(raw, k)
    requires idx.Some? ==> start <= idx.value && forall k :: start <= k < idx.value ==> !MzAt(raw, k)
    ensures Naive(raw, start) == From(raw, idx)
  {
    var end := if idx.Some? then idx.value else if start <= |raw| then |raw| else start;
    NothingBetween(raw, start, end);
  }
}
