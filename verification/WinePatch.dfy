/** Renaming Wine's tell-tale strings inside its binaries: five equal-length replacements, one pass
    each.  A byte is written as the character with its code. */
module WinePatch {
  import opened Common

  type Bytes = string

  datatype Rename = Rename(target: Bytes, replacement: Bytes)

  const REPLACEMENTS: seq<Rename> := [
    Rename("wine_get_unix_file_name", "fake_get_unix_file_name"),
    Rename("Software\\Wine", "Software\\Winf"),
    Rename("SOFTWARE\\Wine", "SOFTWARE\\Winf"),
    Rename("S\0o\0f\0t\0w\0a\0r\0e\0\\\0W\0i\0n\0e\0", "S\0o\0f\0t\0w\0a\0r\0e\0\\\0W\0i\0n\0f\0"),
    Rename("S\0O\0F\0T\0W\0A\0R\0E\0\\\0W\0i\0n\0e\0", "S\0O\0F\0T\0W\0A\0R\0E\0\\\0W\0i\0n\0f\0")
  ]

  /** `bytes.replace` for a non-empty target: left to right, going on behind each match. */
  function Replace(d: Bytes, c: Rename): Bytes {
    if c.target == "" || |d| < |c.target| then d
    else if c.target <= d then c.replacement + Replace(d[|c.target|..], c)
    else [d[0]] + Replace(d[1..], c)
  }

  // ---- what a pass must do, position by position

  /** Position `i` lies in an occurrence of a target. */
  ghost predicate Covered(d: Bytes, table: seq<Rename>, i: nat) {
    exists k, p :: Covers(d, table, k, p, i)
  }

  predicate Covers(d: Bytes, table: seq<Rename>, k: nat, p: nat, i: nat) {
    k < |table| && At(d, p, table[k].target) && p <= i < p + |table[k].target|
  }

  /** Every occurrence of every target in `d` holds its replacement in `e`, all at once, and every
      other byte is as before.  This leaves no freedom: it determines `e`. */
  ghost predicate Renamed(d: Bytes, e: Bytes, table: seq<Rename>) {
    && |e| == |d|
    && (forall k: nat, p: nat :: k < |table| && At(d, p, table[k].target) ==> At(e, p, table[k].replacement))
    && (forall i :: 0 <= i < |d| && !Covered(d, table, i) ==> e[i] == d[i])
  }

  // ---- why the passes do not interfere

  /** Behind its first byte, `a` has no place where a string beginning with `head` could start. */
  predicate NoStartInside(a: Bytes, head: Bytes)
    requires |head| == 2
  {
    forall i :: 1 <= i < |a| ==> a[i] != head[0] || (i + 1 < |a| && a[i + 1] != head[1])
  }

  ghost predicate Separate(a: Bytes, b: Bytes) {
    && |a| >= 3 && |b| >= 3
    && NoStartInside(a, b[..2]) && NoStartInside(b, a[..2])
  }

  lemma CannotStartInside(d: Bytes, p: nat, a: Bytes, q: nat, b: Bytes)
    requires Separate(a, b) && At(d, p, a) && p < q < p + |a|
    ensures !At(d, q, b)
  {
    if At(d, q, b) {
      AtByte(d, p, a, q);
      AtByte(d, q, b, q);
      AtByte(d, q, b, q + 1);
      if q + 1 < p + |a| { AtByte(d, p, a, q + 1); }
      Inside(a, b, q - p);
    }
  }

  lemma AtByte(d: Bytes, p: nat, a: Bytes, x: nat)
    requires At(d, p, a) && p <= x < p + |a|
    ensures d[x] == a[x - p]
  {
    assert d[p..p + |a|][x - p] == a[x - p];
  }

  lemma Inside(a: Bytes, b: Bytes, i: nat)
    requires |b| >= 2 && NoStartInside(a, b[..2]) && 1 <= i < |a|
    ensures a[i] != b[0] || (i + 1 < |a| && a[i + 1] != b[1])
  {
    var head := b[..2];
    assert NoStartInside(a, head);
    assert a[i] != head[0] || (i + 1 < |a| && a[i + 1] != head[1]);
  }

  /** Two strings of which neither can start inside the other occupy disjoint places. */
  lemma DisjointPlaces(d: Bytes, p: nat, a: Bytes, q: nat, b: Bytes)
    requires Separate(a, b) && At(d, p, a) && At(d, q, b) && p != q
    ensures p + |a| <= q || q + |b| <= p
  {
    if p < q < p + |a| {
      CannotStartInside(d, p, a, q, b);
    } else if q < p < q + |b| {
      CannotStartInside(d, q, b, p, a);
    }
  }

  lemma DifferentAtOnePlace(d: Bytes, p: nat, a: Bytes, b: Bytes)
    requires At(d, p, a) && At(d, p, b) && |a| >= 3 && |b| >= 3
    ensures a[..3] == b[..3] && (|a| == |b| ==> a == b)
  {
    assert a[..3] == d[p..p + |a|][..3] == d[p..p + 3];
    assert b[..3] == d[p..p + |b|][..3] == d[p..p + 3];
  }

  /** The table: targets do not overlap targets, nor replacements. */
  ghost predicate Sound(table: seq<Rename>) {
    && (forall k :: 0 <= k < |table| ==> |table[k].target| == |table[k].replacement| >= 3
                                         && table[k].target != table[k].replacement)
    && (forall k, j :: 0 <= k < |table| && 0 <= j < |table| ==> Separate(table[k].target, table[j].target))
    && (forall k, j :: 0 <= k < |table| && 0 <= j < |table| ==> Separate(table[k].target, table[j].replacement))
    && (forall k, j :: 0 <= k < |table| && 0 <= j < |table| && k != j ==>
          table[k].target[..3] != table[j].target[..3] && table[k].target[..3] != table[j].replacement[..3])
  }

  /** Occurrences of targets never overlap, except with themselves. */
  lemma TargetsApart(d: Bytes, table: seq<Rename>, k: nat, p: nat, j: nat, q: nat)
    requires Sound(table) && k < |table| && j < |table| && (k != j || p != q)
    requires At(d, p, table[k].target) && At(d, q, table[j].target)
    ensures p + |table[k].target| <= q || q + |table[j].target| <= p
  {
    if p == q {
      DifferentAtOnePlace(d, p, table[k].target, table[j].target);
    } else {
      DisjointPlaces(d, p, table[k].target, q, table[j].target);
    }
  }

  /** A target never overlaps a replacement. */
  lemma ReplacementsApart(d: Bytes, table: seq<Rename>, k: nat, p: nat, j: nat, q: nat)
    requires Sound(table) && k < |table| && j < |table|
    requires At(d, p, table[k].target) && At(d, q, table[j].replacement)
    ensures p + |table[k].target| <= q || q + |table[j].replacement| <= p
  {
    if p == q {
      DifferentAtOnePlace(d, p, table[k].target, table[j].replacement);
    } else {
      DisjointPlaces(d, p, table[k].target, q, table[j].replacement);
    }
  }

  // ---- one pass

  lemma AtSuffix(d: Bytes, n: nat, p: nat, t: Bytes)
    requires n <= |d|
    ensures At(d[n..], p, t) <==> At(d, n + p, t)
  {
    if n + p + |t| <= |d| {
      assert d[n..][p..p + |t|] == d[n + p..n + p + |t|];
    }
  }

  lemma AtBehind(x: Bytes, d: Bytes, p: nat, t: Bytes)
    ensures At(d, p, t) <==> At(x + d, |x| + p, t)
  {
    assert (x + d)[|x|..] == d;
    AtSuffix(x + d, |x|, p, t);
  }

  /** `x` is what the pass writes for the first `n` bytes of `d`. */
  ghost predicate FirstPart(d: Bytes, n: nat, x: Bytes, c: Rename) {
    && 0 < n == |x| <= |d|
    && (forall p :: 0 < p < n ==> !At(d, p, c.target))
    && (if At(d, 0, c.target) then x == c.replacement && n == |c.target| else x == d[..n] && n == 1)
  }

  lemma OccurrencesBehind(d: Bytes, n: nat, x: Bytes, e: Bytes, c: Rename, p: nat)
    requires FirstPart(d, n, x, c) && Renamed(d[n..], e, [c]) && At(d, p, c.target)
    ensures At(x + e, p, c.replacement)
  {
    if p == 0 {
      assert (x + e)[..|x|] == x;
    } else {
      AtSuffix(d, n, p - n, c.target);
      RenamedThere(d[n..], e, c, p - n);
      AtBehind(x, e, p - n, c.replacement);
    }
  }

  lemma RenamedThere(d: Bytes, e: Bytes, c: Rename, p: nat)
    requires Renamed(d, e, [c]) && At(d, p, c.target)
    ensures At(e, p, c.replacement)
  {
    assert [c][0] == c;
  }

  lemma UncoveredBehind(d: Bytes, n: nat, x: Bytes, e: Bytes, c: Rename, i: nat)
    requires FirstPart(d, n, x, c) && Renamed(d[n..], e, [c]) && i < |d| && !Covered(d, [c], i)
    ensures (x + e)[i] == d[i]
  {
    if i < n {
      if At(d, 0, c.target) { assert Covers(d, [c], 0, 0, i); }
    } else {
      UncoveredSuffix(d, n, c, i - n);
      assert (x + e)[i] == e[i - n] == d[n..][i - n];
    }
  }

  lemma UncoveredSuffix(d: Bytes, n: nat, c: Rename, i: nat)
    requires n <= |d| && !Covered(d, [c], n + i)
    ensures !Covered(d[n..], [c], i)
  {
    if Covered(d[n..], [c], i) {
      var k: nat, p: nat :| Covers(d[n..], [c], k, p, i);
      AtSuffix(d, n, p, c.target);
      assert Covers(d, [c], k, n + p, n + i);
    }
  }

  /** The changes of a suffix, with the first part in front of it. */
  lemma RenamedBehind(d: Bytes, n: nat, x: Bytes, e: Bytes, c: Rename)
    requires FirstPart(d, n, x, c) && Renamed(d[n..], e, [c])
    ensures Renamed(d, x + e, [c])
  {
    forall k: nat, p: nat | k < |[c]| && At(d, p, [c][k].target) ensures At(x + e, p, [c][k].replacement) {
      OccurrencesBehind(d, n, x, e, c, p);
    }
    forall i | 0 <= i < |d| && !Covered(d, [c], i) ensures (x + e)[i] == d[i] {
      UncoveredBehind(d, n, x, e, c, i);
    }
  }

  /** One pass renames all occurrences, since a target cannot overlap itself. */
  lemma {:induction false} ReplaceRenames(d: Bytes, c: Rename)
    requires |c.target| >= 3 && Sound([c])
    ensures Renamed(d, Replace(d, c), [c])
    decreases |d|
  {
    var t := c.target;
    assert [c][0] == c && Separate(t, t);
    if |d| >= |t| {
      if t <= d {
        assert At(d, 0, t);
        forall p | 0 < p < |t| ensures !At(d, p, t) {
          if At(d, p, t) { DisjointPlaces(d, 0, t, p, t); }
        }
        ReplaceRenames(d[|t|..], c);
        RenamedBehind(d, |t|, c.replacement, Replace(d[|t|..], c), c);
      } else {
        assert !At(d, 0, t);
        ReplaceRenames(d[1..], c);
        RenamedBehind(d, 1, [d[0]], Replace(d[1..], c), c);
      }
    }
  }

  // ---- all passes, one after the other

  /** The passes up to the `k`-th, in table order. */
  function Passes(d: Bytes, table: seq<Rename>, k: nat): Bytes
    requires k <= |table|
  {
    if k == 0 then d else Replace(Passes(d, table, k - 1), table[k - 1])
  }

  /** A place that no occurrence touches is unchanged. */
  lemma UntouchedPlace(d: Bytes, e: Bytes, table: seq<Rename>, p: nat, n: nat)
    requires Renamed(d, e, table) && p + n <= |d|
    requires forall i :: p <= i < p + n ==> !Covered(d, table, i)
    ensures d[p..p + n] == e[p..p + n]
  {
    assert forall i :: p <= i < p + n ==> d[i] == e[i];
  }

  /** Whatever targets have been renamed already, an occurrence of any target in the result was
      there from the start, and no other occurrence touched its place. */
  lemma OccurrenceIsOld(d: Bytes, e: Bytes, table: seq<Rename>, m: nat, k: nat, p: nat)
    requires Sound(table) && m <= |table| && k < |table|
    requires Renamed(d, e, table[..m]) && At(e, p, table[k].target)
    ensures At(d, p, table[k].target) && k >= m
  {
    var t := table[k].target;
    forall i | p <= i < p + |t| ensures !Covered(d, table[..m], i) {
      if Covered(d, table[..m], i) {
        var j: nat, q: nat :| Covers(d, table[..m], j, q, i);
        assert At(e, q, table[..m][j].replacement);
        ReplacementsApart(e, table, k, p, j, q);
      }
    }
    UntouchedPlace(d, e, table[..m], p, |t|);
    OccurrenceCovers(d, table, m, k, p, p);
  }

  lemma OccurrenceCovers(d: Bytes, table: seq<Rename>, m: nat, k: nat, p: nat, i: nat)
    requires m <= |table|
    ensures k < m && Covers(d, table, k, p, i) ==> Covered(d, table[..m], i)
  {
    if k < m && Covers(d, table, k, p, i) {
      assert Covers(d, table[..m], k, p, i);
    }
  }

  /** And an occurrence of a target whose pass is still to come is still there. */
  lemma OccurrenceSurvives(d: Bytes, e: Bytes, table: seq<Rename>, m: nat, k: nat, p: nat)
    requires Sound(table) && m <= k < |table|
    requires Renamed(d, e, table[..m]) && At(d, p, table[k].target)
    ensures At(e, p, table[k].target)
  {
    var t := table[k].target;
    forall i | p <= i < p + |t| ensures !Covered(d, table[..m], i) {
      if Covered(d, table[..m], i) {
        var j: nat, q: nat :| Covers(d, table[..m], j, q, i);
        TargetsApart(d, table, k, p, j, q);
      }
    }
    UntouchedPlace(d, e, table[..m], p, |t|);
  }

  lemma OccurrencesAfterPass(d: Bytes, e: Bytes, f: Bytes, table: seq<Rename>, m: nat, k: nat, p: nat)
    requires Sound(table) && m < |table| && Renamed(d, e, table[..m]) && Renamed(e, f, [table[m]])
    requires k <= m && At(d, p, table[k].target)
    ensures At(f, p, table[k].replacement)
  {
    if k == m {
      OccurrenceSurvives(d, e, table, m, k, p);
      assert [table[m]][0] == table[m];
    } else {
      var r := table[k].replacement;
      assert table[..m][k] == table[k];
      assert At(e, p, r);
      forall i | p <= i < p + |r| ensures !Covered(e, [table[m]], i) {
        if Covered(e, [table[m]], i) {
          var z: nat, q: nat :| Covers(e, [table[m]], z, q, i);
          OccurrenceIsOld(d, e, table, m, m, q);
          TargetsApart(d, table, k, p, m, q);
        }
      }
      UntouchedPlace(e, f, [table[m]], p, |r|);
    }
  }

  lemma UncoveredAfterPass(d: Bytes, e: Bytes, f: Bytes, table: seq<Rename>, m: nat, i: nat)
    requires Sound(table) && m < |table| && Renamed(d, e, table[..m]) && Renamed(e, f, [table[m]])
    requires i < |d| && !Covered(d, table[..m + 1], i)
    ensures f[i] == d[i]
  {
    StillCovered(d, table, m, i);
    NewlyCovered(d, e, table, m, i);
  }

  lemma StillCovered(d: Bytes, table: seq<Rename>, m: nat, i: nat)
    requires m < |table|
    ensures Covered(d, table[..m], i) ==> Covered(d, table[..m + 1], i)
  {
    if Covered(d, table[..m], i) {
      var j: nat, q: nat :| Covers(d, table[..m], j, q, i);
      assert Covers(d, table[..m + 1], j, q, i);
    }
  }

  lemma NewlyCovered(d: Bytes, e: Bytes, table: seq<Rename>, m: nat, i: nat)
    requires Sound(table) && m < |table| && Renamed(d, e, table[..m])
    ensures Covered(e, [table[m]], i) ==> Covered(d, table[..m + 1], i)
  {
    if Covered(e, [table[m]], i) {
      var z: nat, q: nat :| Covers(e, [table[m]], z, q, i);
      OccurrenceIsOld(d, e, table, m, m, q);
      assert Covers(d, table[..m + 1], m, q, i);
    }
  }

  lemma OneMorePass(d: Bytes, e: Bytes, f: Bytes, table: seq<Rename>, m: nat, n: nat)
    requires Sound(table) && m < |table| && n == m + 1 && Renamed(d, e, table[..m]) && Renamed(e, f, [table[m]])
    ensures Renamed(d, f, table[..n])
  {
    var done := table[..n];
    forall k: nat, p: nat | k < |done| && At(d, p, done[k].target) ensures At(f, p, done[k].replacement) {
      OccurrencesAfterPass(d, e, f, table, m, k, p);
    }
    forall i | 0 <= i < |d| && !Covered(d, done, i) ensures f[i] == d[i] {
      UncoveredAfterPass(d, e, f, table, m, i);
    }
  }

  /** `e` is what `m` passes make of `d`, and they are as good as one renaming. */
  ghost predicate PassedTo(d: Bytes, e: Bytes, table: seq<Rename>, m: nat) {
    m <= |table| && e == Passes(d, table, m) && Renamed(d, e, table[..m])
  }

  lemma NoPass(d: Bytes, table: seq<Rename>)
    ensures PassedTo(d, d, table, 0)
  {}

  /** The pass of entry `m` is the `n`-th. */
  lemma NextPass(d: Bytes, e: Bytes, table: seq<Rename>, m: nat, n: nat) returns (f: Bytes)
    requires Sound(table) && m < |table| && n == m + 1 && PassedTo(d, e, table, m)
    ensures PassedTo(d, f, table, n)
  {
    f := RenamedOnce(e, table, m);
    OneMorePass(d, e, f, table, m, n);
  }

  lemma RenamedOnce(e: Bytes, table: seq<Rename>, m: nat) returns (f: Bytes)
    requires Sound(table) && m < |table|
    ensures f == Replace(e, table[m]) && Renamed(e, f, [table[m]])
  {
    SoundOne(table, m);
    ReplaceRenames(e, table[m]);
    f := Replace(e, table[m]);
  }

  lemma {:induction false} PassResult(d: Bytes, table: seq<Rename>, m: nat) returns (e: Bytes)
    requires Sound(table) && m <= |table|
    ensures PassedTo(d, e, table, m)
    decreases m
  {
    if m == 0 {
      NoPass(d, table);
      e := d;
    } else {
      var before := PassResult(d, table, m - 1);
      e := NextPass(d, before, table, m - 1, m);
    }
  }

  /** The passes in sequence do what a single simultaneous renaming would do. */
  lemma PassesAreSimultaneous(d: Bytes, table: seq<Rename>, m: nat)
    requires Sound(table) && m <= |table|
    ensures Renamed(d, Passes(d, table, m), table[..m])
  {
    var e := PassResult(d, table, m);
  }

  /** `Renamed` leaves no choice. */
  lemma RenamedIsUnique(d: Bytes, e: Bytes, f: Bytes, table: seq<Rename>)
    requires Renamed(d, e, table) && Renamed(d, f, table)
    requires forall k :: 0 <= k < |table| ==> |table[k].target| == |table[k].replacement|
    ensures e == f
  {
    forall i | 0 <= i < |d| ensures e[i] == f[i] {
      if Covered(d, table, i) {
        var k: nat, p: nat :| Covers(d, table, k, p, i);
        var r := table[k].replacement;
        assert At(e, p, r) && At(f, p, r);
        AtByte(e, p, r, i);
        AtByte(f, p, r, i);
      }
    }
  }

  lemma SoundOne(table: seq<Rename>, k: nat)
    requires Sound(table) && k < |table|
    ensures Sound([table[k]])
  {
    var one := [table[k]];
    assert Separate(table[k].target, table[k].target) && Separate(table[k].target, table[k].replacement);
  }

  ghost predicate Clean(d: Bytes, table: seq<Rename>) {
    forall k: nat, p: nat :: k < |table| ==> !At(d, p, table[k].target)
  }

  /** No target is left, so no later pass brought an earlier one back. */
  lemma NoTargetRemains(d: Bytes, table: seq<Rename>)
    requires Sound(table)
    ensures Clean(Passes(d, table, |table|), table)
  {
    var e := Passes(d, table, |table|);
    PassesAreSimultaneous(d, table, |table|);
    forall k: nat, p: nat | k < |table| ensures !At(e, p, table[k].target) {
      if At(e, p, table[k].target) { OccurrenceIsOld(d, e, table, |table|, k, p); }
    }
  }

  lemma {:induction false} NothingToReplace(d: Bytes, c: Rename)
    requires forall p: nat :: !At(d, p, c.target)
    ensures Replace(d, c) == d
    decreases |d|
  {
    if c.target != "" && |d| >= |c.target| {
      assert !At(d, 0, c.target);
      forall p: nat ensures !At(d[1..], p, c.target) {
        AtSuffix(d, 1, p, c.target);
      }
      NothingToReplace(d[1..], c);
    }
  }

  lemma {:induction false} CleanIsUnchanged(d: Bytes, table: seq<Rename>, m: nat)
    requires Clean(d, table) && m <= |table|
    ensures Passes(d, table, m) == d
    decreases m
  {
    if m > 0 {
      CleanIsUnchanged(d, table, m - 1);
      CleanPass(d, table, m);
    }
  }

  lemma CleanPass(d: Bytes, table: seq<Rename>, m: nat)
    requires Clean(d, table) && 0 < m <= |table| && Passes(d, table, m - 1) == d
    ensures Passes(d, table, m) == d
  {
    NothingToReplace(d, table[m - 1]);
  }

  /** Patching twice is patching once. */
  lemma PatchIsIdempotent(d: Bytes, table: seq<Rename>)
    requires Sound(table)
    ensures Passes(Passes(d, table, |table|), table, |table|) == Passes(d, table, |table|)
  {
    NoTargetRemains(d, table);
    CleanIsUnchanged(Passes(d, table, |table|), table, |table|);
  }

  // ---- the shipped table

  /** How targets and replacements begin. */
  const HEADS: seq<Bytes> := ["wi", "So", "SO", "S\0", "fa"]

  predicate NoHeadInside(a: Bytes, heads: seq<Bytes>)
    requires forall h :: 0 <= h < |heads| ==> |heads[h]| == 2
  {
    forall h :: 0 <= h < |heads| ==> NoStartInside(a, heads[h])
  }

  lemma JoinHeads(a: Bytes, heads: seq<Bytes>, k: nat)
    requires k <= |heads| && forall h :: 0 <= h < |heads| ==> |heads[h]| == 2
    requires NoHeadInside(a, heads[..k]) && NoHeadInside(a, heads[k..])
    ensures NoHeadInside(a, heads)
  {
    forall h | 0 <= h < |heads| ensures NoStartInside(a, heads[h]) {
      assert heads[h] == if h < k then heads[..k][h] else heads[k..][h - k];
    }
  }

  lemma Target0()
    ensures NoHeadInside(REPLACEMENTS[0].target, HEADS)
  {
    Target0First();
    Target0Last();
    JoinHeads(REPLACEMENTS[0].target, HEADS, 3);
  }

  lemma Target0First()
    ensures NoHeadInside(REPLACEMENTS[0].target, HEADS[..3])
  {}

  lemma Target0Last()
    ensures NoHeadInside(REPLACEMENTS[0].target, HEADS[3..])
  {}

  lemma Replacement0()
    ensures NoHeadInside(REPLACEMENTS[0].replacement, HEADS[..4])
  {}

  lemma Target1()
    ensures NoHeadInside(REPLACEMENTS[1].target, HEADS)
  {
    Target1First();
    Target1Last();
    JoinHeads(REPLACEMENTS[1].target, HEADS, 3);
  }

  lemma Target1First()
    ensures NoHeadInside(REPLACEMENTS[1].target, HEADS[..3])
  {}

  lemma Target1Last()
    ensures NoHeadInside(REPLACEMENTS[1].target, HEADS[3..])
  {}

  lemma Replacement1()
    ensures NoHeadInside(REPLACEMENTS[1].replacement, HEADS[..4])
  {}

  lemma Target2()
    ensures NoHeadInside(REPLACEMENTS[2].target, HEADS)
  {
    Target2First();
    Target2Last();
    JoinHeads(REPLACEMENTS[2].target, HEADS, 3);
  }

  lemma Target2First()
    ensures NoHeadInside(REPLACEMENTS[2].target, HEADS[..3])
  {}

  lemma Target2Last()
    ensures NoHeadInside(REPLACEMENTS[2].target, HEADS[3..])
  {}

  lemma Replacement2()
    ensures NoHeadInside(REPLACEMENTS[2].replacement, HEADS[..4])
  {}

  lemma Target3()
    ensures NoHeadInside(REPLACEMENTS[3].target, HEADS)
  {
    Target3First();
    Target3Last();
    JoinHeads(REPLACEMENTS[3].target, HEADS, 3);
  }

  lemma Target3First()
    ensures NoHeadInside(REPLACEMENTS[3].target, HEADS[..3])
  {}

  lemma Target3Last()
    ensures NoHeadInside(REPLACEMENTS[3].target, HEADS[3..])
  {}

  lemma Replacement3()
    ensures NoHeadInside(REPLACEMENTS[3].replacement, HEADS[..4])
  {
    Replacement3First();
    Replacement3Last();
    JoinHeads(REPLACEMENTS[3].replacement, HEADS[..4], 2);
  }

  lemma Replacement3First()
    ensures NoHeadInside(REPLACEMENTS[3].replacement, HEADS[..4][..2])
  {}

  lemma Replacement3Last()
    ensures NoHeadInside(REPLACEMENTS[3].replacement, HEADS[..4][2..])
  {}

  lemma Target4()
    ensures NoHeadInside(REPLACEMENTS[4].target, HEADS)
  {
    Target4First();
    Target4Last();
    JoinHeads(REPLACEMENTS[4].target, HEADS, 3);
  }

  lemma Target4First()
    ensures NoHeadInside(REPLACEMENTS[4].target, HEADS[..3])
  {}

  lemma Target4Last()
    ensures NoHeadInside(REPLACEMENTS[4].target, HEADS[3..])
  {}

  lemma Replacement4()
    ensures NoHeadInside(REPLACEMENTS[4].replacement, HEADS[..4])
  {
    Replacement4First();
    Replacement4Last();
    JoinHeads(REPLACEMENTS[4].replacement, HEADS[..4], 2);
  }

  lemma Replacement4First()
    ensures NoHeadInside(REPLACEMENTS[4].replacement, HEADS[..4][..2])
  {}

  lemma Replacement4Last()
    ensures NoHeadInside(REPLACEMENTS[4].replacement, HEADS[..4][2..])
  {}

  lemma TargetInside(k: nat)
    requires k < 5
    ensures NoHeadInside(REPLACEMENTS[k].target, HEADS)
  {
    if k == 0 { Target0(); } else if k == 1 { Target1(); } else if k == 2 { Target2(); }
    else if k == 3 { Target3(); } else { Target4(); }
  }

  lemma ReplacementInside(k: nat)
    requires k < 5
    ensures NoHeadInside(REPLACEMENTS[k].replacement, HEADS[..4])
  {
    if k == 0 { Replacement0(); } else if k == 1 { Replacement1(); } else if k == 2 { Replacement2(); }
    else if k == 3 { Replacement3(); } else { Replacement4(); }
  }

  /** Which head the `k`-th target has; the replacements share it, but for the first. */
  function Head(k: nat): nat {
    if k < 4 then k else 3
  }

  /** Three bytes that tell the targets apart, and from the replacements of the others. */
  const STARTS: seq<Bytes> := ["win", "Sof", "SOF", "S\0o", "S\0O"]
  const NEW_STARTS: seq<Bytes> := ["fak", "Sof", "SOF", "S\0o", "S\0O"]

  lemma Lengths(k: nat)
    requires k < 5
    ensures |REPLACEMENTS[k].target| == |REPLACEMENTS[k].replacement| == [23, 13, 13, 26, 26][k]
  {}

  lemma Heads(k: nat)
    requires k < 5
    ensures |REPLACEMENTS[k].target| >= 3 && |REPLACEMENTS[k].replacement| >= 3
    ensures REPLACEMENTS[k].target[..2] == HEADS[Head(k)]
    ensures REPLACEMENTS[k].replacement[..2] == HEADS[if k == 0 then 4 else Head(k)]
  {
    Lengths(k);
  }

  lemma Starts(k: nat)
    requires k < 5
    ensures |REPLACEMENTS[k].target| >= 3 && |REPLACEMENTS[k].replacement| >= 3
    ensures REPLACEMENTS[k].target[..3] == STARTS[k] && REPLACEMENTS[k].replacement[..3] == NEW_STARTS[k]
  {
    Lengths(k);
  }

  /** Where the replacement first differs. */
  lemma Differs(k: nat)
    requires k < 5
    ensures REPLACEMENTS[k].target != REPLACEMENTS[k].replacement
  {
    Lengths(k);
    var at := [0, 12, 12, 24, 24][k];
    assert REPLACEMENTS[k].target[at] != REPLACEMENTS[k].replacement[at];
  }

  lemma SeparatePair(k: nat, j: nat)
    requires k < 5 && j < 5
    ensures Separate(REPLACEMENTS[k].target, REPLACEMENTS[j].target)
    ensures Separate(REPLACEMENTS[k].target, REPLACEMENTS[j].replacement)
  {
    TargetInside(k); TargetInside(j); ReplacementInside(j);
    Heads(k); Heads(j);
    assert NoStartInside(REPLACEMENTS[k].target, HEADS[if j == 0 then 4 else Head(j)]);
    assert NoStartInside(REPLACEMENTS[k].target, HEADS[Head(j)]);
    assert NoStartInside(REPLACEMENTS[j].target, HEADS[Head(k)]);
    assert HEADS[..4][Head(k)] == HEADS[Head(k)];
  }

  /** So the results above hold for the five replacements that ship. */
  lemma ShippedTableIsSound()
    ensures Sound(REPLACEMENTS)
  {
    forall k, j | 0 <= k < 5 && 0 <= j < 5
      ensures Separate(REPLACEMENTS[k].target, REPLACEMENTS[j].target)
           && Separate(REPLACEMENTS[k].target, REPLACEMENTS[j].replacement)
    {
      SeparatePair(k, j);
    }
    forall k, j | 0 <= k < 5 && 0 <= j < 5 && k != j
      ensures REPLACEMENTS[k].target[..3] != REPLACEMENTS[j].target[..3]
           && REPLACEMENTS[k].target[..3] != REPLACEMENTS[j].replacement[..3]
    {
      DifferentStarts(k, j);
    }
    forall k | 0 <= k < 5
      ensures |REPLACEMENTS[k].target| == |REPLACEMENTS[k].replacement| >= 3
           && REPLACEMENTS[k].target != REPLACEMENTS[k].replacement
    {
      Lengths(k);
      Differs(k);
    }
  }

  lemma DifferentStarts(k: nat, j: nat)
    requires k < 5 && j < 5 && k != j
    ensures |REPLACEMENTS[k].target| >= 3 && |REPLACEMENTS[j].target| >= 3 && |REPLACEMENTS[j].replacement| >= 3
    ensures REPLACEMENTS[k].target[..3] != REPLACEMENTS[j].target[..3]
    ensures REPLACEMENTS[k].target[..3] != REPLACEMENTS[j].replacement[..3]
  {
    Starts(k);
    Starts(j);
    var t, u, r := STARTS[k], STARTS[j], NEW_STARTS[j];
    assert t[0] != u[0] || t[1] != u[1] || t[2] != u[2];
    assert t[0] != r[0] || t[1] != r[1] || t[2] != r[2];
  }

  /** Text in UTF-16, low octet first. */
  function Wide(s: Bytes): Bytes {
    seq(2 * |s|, i requires 0 <= i < 2 * |s| => if i % 2 == 0 then s[i / 2] else '\0')
  }

  /** The shipped table renames one exported function, and the last letter of a registry key in two
      spellings, each as plain and as wide text. */
  lemma ShippedPairs()
    ensures |REPLACEMENTS| == 5
    ensures REPLACEMENTS[0] == Rename("wine_get_unix_file_name", "fake_get_unix_file_name")
    ensures REPLACEMENTS[1] == Rename("Software\\Wine", "Software\\Winf")
    ensures REPLACEMENTS[2] == Rename("SOFTWARE\\Wine", "SOFTWARE\\Winf")
    ensures REPLACEMENTS[3] == Rename(Wide("Software\\Wine"), Wide("Software\\Winf"))
    ensures REPLACEMENTS[4] == Rename(Wide("SOFTWARE\\Wine"), Wide("SOFTWARE\\Winf"))
  {
    WidePairs();
  }

  lemma WidePairs()
    ensures REPLACEMENTS[3].target == Wide("Software\\Wine") && REPLACEMENTS[3].replacement == Wide("Software\\Winf")
    ensures REPLACEMENTS[4].target == Wide("SOFTWARE\\Wine") && REPLACEMENTS[4].replacement == Wide("SOFTWARE\\Winf")
  {
    WideTarget3();
    WideReplacement3();
    WideTarget4();
    WideReplacement4();
  }

  lemma Halves(x: Bytes, y: Bytes)
    requires |x| >= 13 && |y| >= 13 && x[..13] == y[..13] && x[13..] == y[13..]
    ensures x == y
  {
    assert x == x[..13] + x[13..] && y == y[..13] + y[13..];
  }

  lemma WideTarget3()
    ensures REPLACEMENTS[3].target == Wide("Software\\Wine")
  {
    WideTarget3First();
    WideTarget3Last();
    Halves(REPLACEMENTS[3].target, Wide("Software\\Wine"));
  }

  lemma WideTarget3First()
    ensures |REPLACEMENTS[3].target| >= 13 && REPLACEMENTS[3].target[..13] == Wide("Software\\Wine")[..13]
  {}

  lemma WideTarget3Last()
    ensures |REPLACEMENTS[3].target| >= 13 && REPLACEMENTS[3].target[13..] == Wide("Software\\Wine")[13..]
  {}

  lemma WideReplacement3()
    ensures REPLACEMENTS[3].replacement == Wide("Software\\Winf")
  {
    WideReplacement3First();
    WideReplacement3Last();
    Halves(REPLACEMENTS[3].replacement, Wide("Software\\Winf"));
  }

  lemma WideReplacement3First()
    ensures |REPLACEMENTS[3].replacement| >= 13 && REPLACEMENTS[3].replacement[..13] == Wide("Software\\Winf")[..13]
  {}

  lemma WideReplacement3Last()
    ensures |REPLACEMENTS[3].replacement| >= 13 && REPLACEMENTS[3].replacement[13..] == Wide("Software\\Winf")[13..]
  {}

  lemma WideTarget4()
    ensures REPLACEMENTS[4].target == Wide("SOFTWARE\\Wine")
  {
    WideTarget4First();
    WideTarget4Last();
    Halves(REPLACEMENTS[4].target, Wide("SOFTWARE\\Wine"));
  }

  lemma WideTarget4First()
    ensures |REPLACEMENTS[4].target| >= 13 && REPLACEMENTS[4].target[..13] == Wide("SOFTWARE\\Wine")[..13]
  {}

  lemma WideTarget4Last()
    ensures |REPLACEMENTS[4].target| >= 13 && REPLACEMENTS[4].target[13..] == Wide("SOFTWARE\\Wine")[13..]
  {}

  lemma WideReplacement4()
    ensures REPLACEMENTS[4].replacement == Wide("SOFTWARE\\Winf")
  {
    WideReplacement4First();
    WideReplacement4Last();
    Halves(REPLACEMENTS[4].replacement, Wide("SOFTWARE\\Winf"));
  }

  lemma WideReplacement4First()
    ensures |REPLACEMENTS[4].replacement| >= 13 && REPLACEMENTS[4].replacement[..13] == Wide("SOFTWARE\\Winf")[..13]
  {}

  lemma WideReplacement4Last()
    ensures |REPLACEMENTS[4].replacement| >= 13 && REPLACEMENTS[4].replacement[13..] == Wide("SOFTWARE\\Winf")[13..]
  {}

  /** What the shipped patch does to any file: a simultaneous renaming that leaves no target
      behind, and nothing to do for a second run. */
  lemma ShippedPatch(d: Bytes)
    ensures var e := Passes(d, REPLACEMENTS, |REPLACEMENTS|);
            && |e| == |d| && Renamed(d, e, REPLACEMENTS) && Clean(e, REPLACEMENTS)
            && Passes(e, REPLACEMENTS, |REPLACEMENTS|) == e
  {
    ShippedTableIsSound();
    PatchedAsTable(d, REPLACEMENTS);
  }

  lemma PatchedAsTable(d: Bytes, table: seq<Rename>)
    requires Sound(table)
    ensures var e := Passes(d, table, |table|);
            Renamed(d, e, table) && Clean(e, table) && Passes(e, table, |table|) == e
  {
    PassesAreSimultaneous(d, table, |table|);
    assert table[..|table|] == table;
    NoTargetRemains(d, table);
    PatchIsIdempotent(d, table);
  }

  predicate Contains(d: Bytes, t: Bytes) {
    exists p :: 0 <= p <= |d| && At(d, p, t)
  }

  ghost predicate FirstClean(d: Bytes, table: seq<Rename>, m: nat) {
    forall k: nat, p: nat :: k < m && k < |table| ==> !At(d, p, table[k].target)
  }

  /** `patch_file`: what is written back, if any target was found at all. */
  method PatchFile(content: Bytes, table: seq<Rename>) returns (data: Bytes, patched: bool)
    requires Sound(table)
    ensures Renamed(content, data, table) && Clean(data, table)
    ensures patched <==> !Clean(content, table)
    ensures patched <==> data != content
    ensures data == Passes(content, table, |table|)
  {
    data, patched := content, false;
    for m := 0 to |table|
      invariant data == Passes(content, table, m)
      invariant patched ==> !Clean(content, table)
      invariant !patched ==> data == content && FirstClean(content, table, m)
    {
      if Contains(data, table[m].target) {
        FoundMeansUnclean(content, table, m);
        data := Replace(data, table[m]);
        patched := true;
      } else {
        NotContained(data, table[m]);
      }
    }
    PassesAreSimultaneous(content, table, |table|);
    assert table[..|table|] == table;
    NoTargetRemains(content, table);
  }

  lemma FoundMeansUnclean(content: Bytes, table: seq<Rename>, m: nat)
    requires Sound(table) && m < |table| && Contains(Passes(content, table, m), table[m].target)
    ensures !Clean(content, table)
  {
    var data := Passes(content, table, m);
    var p :| 0 <= p <= |data| && At(data, p, table[m].target);
    PassesAreSimultaneous(content, table, m);
    OccurrenceIsOld(content, data, table, m, m, p);
  }

  lemma NotContained(d: Bytes, c: Rename)
    requires !Contains(d, c.target)
    ensures Replace(d, c) == d && forall p: nat :: !At(d, p, c.target)
  {
    forall p: nat ensures !At(d, p, c.target) {
      if p <= |d| { assert !(0 <= p <= |d| && At(d, p, c.target)); }
    }
    NothingToReplace(d, c);
  }
}
