/** The arithmetic of the verdict: severities are combined by a rank-decayed saturating
    product.  Severities live in 0..100 and the decay is exactly 3/5. */
module Scoring {

  type Severity = s: int | 0 <= s <= 100

  const DECAY: real := 0.6
  const MALICIOUS_AT := 70
  const SUSPICIOUS_AT := 35

  datatype Level = Benign | Suspicious | Malicious

  /** `0.6 ** rank`. */
  function Decay(rank: nat): real {
    if rank == 0 then 1.0 else DECAY * Decay(rank - 1)
  }

  /** What one finding takes away at the given rank weight. */
  function Weight(s: Severity, w: real): real {
    s as real / 100.0 * w
  }

  /** The fraction of 100 left over after every finding of `s`, the first one at weight `w`. */
  function Residue(s: seq<Severity>, w: real): real {
    if s == [] then 1.0 else (1.0 - Weight(s[0], w)) * Residue(s[1..], DECAY * w)
  }

  /** Python's `round`: to the nearest integer, ties to the even one. */
  function RoundHalfEven(x: real): (r: int)
    ensures -0.5 <= x - r as real <= 0.5
    ensures x - r as real == 0.5 || x - r as real == -0.5 ==> r % 2 == 0
  {
    var down := x.Floor;
    var part := x - down as real;
    if part < 0.5 || (part == 0.5 && down % 2 == 0) then down else down + 1
  }

  function LevelOf(value: int): Level {
    if value >= MALICIOUS_AT then Malicious
    else if value >= SUSPICIOUS_AT then Suspicious
    else Benign
  }

  /** The three ranges. */
  lemma LevelExactly(value: int)
    ensures LevelOf(value) == Malicious <==> value >= 70
    ensures LevelOf(value) == Suspicious <==> 35 <= value < 70
    ensures LevelOf(value) == Benign <==> value < 35
  {}

  predicate Descending(s: seq<Severity>) {
    forall i, j :: 0 <= i < j < |s| ==> s[i] >= s[j]
  }

  predicate AtMost(s: seq<Severity>, t: int) {
    forall i :: 0 <= i < |s| ==> s[i] <= t
  }

  /** Severities from strongest to weakest. */
  function Sorted(s: seq<Severity>): (d: seq<Severity>)
    ensures Descending(d) && multiset(d) == multiset(s) && |d| == |s|
  {
    if s == [] then [] else
      assert s == [s[0]] + s[1..];
      Insert(s[0], Sorted(s[1..]))
  }

  function Insert(x: Severity, d: seq<Severity>): (r: seq<Severity>)
    requires Descending(d)
    ensures Descending(r) && multiset(r) == multiset{x} + multiset(d) && |r| == |d| + 1
    ensures r[0] == if d == [] || x >= d[0] then x else d[0]
  {
    if d == [] || x >= d[0] then [x] + d else
      assert d == [d[0]] + d[1..];
      [d[0]] + Insert(x, d[1..])
  }

  /** The remainder after ranking. */
  function Left(s: seq<Severity>): real {
    Residue(Sorted(s), 1.0)
  }

  function ValueOfLeft(left: real): int {
    RoundHalfEven(100.0 - 100.0 * left)
  }

  /** The 0..100 score of a bag of severities, in whatever order they are listed. */
  function Value(s: seq<Severity>): int {
    ValueOfLeft(Left(s))
  }

  // ---- products of reals

  lemma ProductNonNegative(a: real, b: real)
    requires 0.0 <= a && 0.0 <= b
    ensures 0.0 <= a * b
  {}

  lemma ProductMonotone(x: real, y: real, a: real, b: real)
    requires 0.0 <= x <= y && 0.0 <= b && a <= b
    ensures x * a <= y * b
  {
    ProductNonNegative(y - x, b);
    ProductNonNegative(x, b - a);
    assert y * b - x * a == (y - x) * b + x * (b - a);
  }

  lemma WeightBounds(s: Severity, w: real)
    requires 0.0 <= w <= 1.0
    ensures 0.0 <= Weight(s, w) <= 1.0
  {
    ProductNonNegative(s as real / 100.0, w);
    ProductMonotone(s as real / 100.0, 1.0, w, 1.0);
  }

  lemma WeightMonotone(a: Severity, b: Severity, w: real)
    requires a <= b && 0.0 <= w <= 1.0
    ensures Weight(a, w) <= Weight(b, w)
  {
    ProductMonotone(a as real / 100.0, b as real / 100.0, w, w);
  }

  lemma FactorsOrdered(x: Severity, y: Severity, w: real, a: real, b: real)
    requires 0.0 <= w <= 1.0 && x <= y && a <= b && 0.0 <= b
    ensures (1.0 - Weight(y, w)) * a <= (1.0 - Weight(x, w)) * b
  {
    WeightMonotone(x, y, w);
    WeightBounds(y, w);
    ProductMonotone(1.0 - Weight(y, w), 1.0 - Weight(x, w), a, b);
  }

  lemma WeightDecays(s: Severity, w: real)
    ensures Weight(s, DECAY * w) == DECAY * Weight(s, w)
  {}

  lemma {:induction false} ResidueBounds(s: seq<Severity>, w: real)
    requires 0.0 <= w <= 1.0
    ensures 0.0 <= Residue(s, w) <= 1.0
  {
    if s != [] {
      WeightBounds(s[0], w);
      var rest := Residue(s[1..], DECAY * w);
      ResidueBounds(s[1..], DECAY * w);
      ProductNonNegative(1.0 - Weight(s[0], w), rest);
      ProductMonotone(1.0 - Weight(s[0], w), 1.0, rest, 1.0);
    }
  }

  /** A finding list that is at least as long and at least as strong place by place leaves less. */
  lemma {:induction false} ResidueAntitone(a: seq<Severity>, b: seq<Severity>, w: real)
    requires 0.0 <= w <= 1.0
    requires |a| <= |b| && forall i :: 0 <= i < |a| ==> a[i] <= b[i]
    ensures Residue(b, w) <= Residue(a, w)
  {
    if a == [] {
      ResidueBounds(b, w);
    } else {
      ResidueBounds(a[1..], DECAY * w);
      ResidueAntitone(a[1..], b[1..], DECAY * w);
      var left, low := Residue(a[1..], DECAY * w), Residue(b[1..], DECAY * w);
      var less, more := StrongerHead(a[0], a[1..], b[0], b[1..], w, left, low);
      assert a == [a[0]] + a[1..] && b == [b[0]] + b[1..];
    }
  }

  lemma StrongerHead(x: Severity, rest: seq<Severity>, y: Severity, other: seq<Severity>, w: real,
                     left: real, low: real)
      returns (less: real, more: real)
    requires 0.0 <= w <= 1.0 && x <= y && left == Residue(rest, DECAY * w) && low == Residue(other, DECAY * w)
    requires low <= left && 0.0 <= left
    ensures less == Residue([y] + other, w) && more == Residue([x] + rest, w) && less <= more
  {
    var p, q := 1.0 - Weight(x, w), 1.0 - Weight(y, w);
    WeightMonotone(x, y, w);
    WeightBounds(y, w);
    more := KeepBy(x, rest, w, p, left);
    less := KeepBy(y, other, w, q, low);
    ProductMonotone(q, p, low, left);
  }

  /** The factor of a finding at rank `n` when rank 0 has weight `w`. */
  function RankFactor(x: Severity, n: nat, w: real): real {
    if n == 0 then 1.0 - Weight(x, w) else RankFactor(x, n - 1, DECAY * w)
  }

  /** With `v` the weight at rank `n`, that is 0.6 to the power n times the weight at rank 0. */
  lemma {:induction false} RankFactorIs(x: Severity, n: nat, w: real, v: real)
    requires v == Decay(n) * w
    ensures RankFactor(x, n, w) == 1.0 - Weight(x, v)
  {
    if n > 0 {
      DecayShifts(n, w);
      RankFactorIs(x, n - 1, DECAY * w, v);
    }
  }

  lemma DecayShifts(n: nat, w: real)
    requires n > 0
    ensures Decay(n) * w == Decay(n - 1) * (DECAY * w)
  {}

  lemma CommonFactor(p: real, a: real, b: real, keep: real)
    requires a == b * keep
    ensures p * a == p * b * keep
  {}

  /** The finding at rank n is weighted by 0.6^n. */
  lemma ResidueAppend(s: seq<Severity>, x: Severity, w: real)
    ensures Residue(s + [x], w) == Residue(s, w) * RankFactor(x, |s|, w)
  {
    var more, less := AppendFactor(s, x, w, RankFactor(x, |s|, w));
  }

  lemma {:induction false} AppendFactor(s: seq<Severity>, x: Severity, w: real, keep: real)
      returns (more: real, less: real)
    requires keep == RankFactor(x, |s|, w)
    ensures more == Residue(s + [x], w) && less == Residue(s, w) && more == less * keep
    decreases |s|
  {
    if s == [] {
      AppendToNothing(x, w);
      assert s + [x] == [x];
      more, less := Residue([x], w), 1.0;
    } else {
      var a, b := AppendFactor(s[1..], x, DECAY * w, keep);
      more, less := KeepsFactor(s[0], s[1..] + [x], s[1..], w, a, b, keep);
      HeadAndTail(s, x);
    }
  }

  lemma HeadAndTail(s: seq<Severity>, x: Severity)
    requires s != []
    ensures s == [s[0]] + s[1..] && s + [x] == [s[0]] + (s[1..] + [x])
  {}

  lemma KeepsFactor(h: Severity, longer: seq<Severity>, rest: seq<Severity>, w: real, a: real, b: real, keep: real)
      returns (more: real, less: real)
    requires a == Residue(longer, DECAY * w) && b == Residue(rest, DECAY * w) && a == b * keep
    ensures more == Residue([h] + longer, w) && less == Residue([h] + rest, w) && more == less * keep
  {
    var p := 1.0 - Weight(h, w);
    more := KeepBy(h, longer, w, p, a);
    less := KeepBy(h, rest, w, p, b);
    CommonFactor(p, a, b, keep);
  }

  lemma KeepBy(x: Severity, rest: seq<Severity>, w: real, p: real, left: real) returns (whole: real)
    requires p == 1.0 - Weight(x, w) && left == Residue(rest, DECAY * w)
    ensures whole == Residue([x] + rest, w) && whole == p * left
  {
    ResidueStep(x, rest, w);
    whole := Residue([x] + rest, w);
  }

  lemma AppendToNothing(x: Severity, w: real)
    ensures Residue([x], w) == Residue([], w) * RankFactor(x, 0, w)
  {}

  lemma ResidueStep(x: Severity, rest: seq<Severity>, w: real)
    ensures Residue([x] + rest, w) == (1.0 - Weight(x, w)) * Residue(rest, DECAY * w)
  {
    assert ([x] + rest)[1..] == rest;
  }

  // ---- rank order is optimal

  /** Two findings `p` and `q` in this order, then a tail. */
  function TwoFactors(p: real, q: real, tail: real): real {
    (1.0 - p) * ((1.0 - DECAY * q) * tail)
  }

  lemma SwapFactors(p: real, q: real, tail: real)
    requires q <= p && 0.0 <= tail
    ensures TwoFactors(p, q, tail) <= TwoFactors(q, p, tail)
  {
    var left, right := (1.0 - p) * (1.0 - DECAY * q), (1.0 - q) * (1.0 - DECAY * p);
    assert right - left == (1.0 - DECAY) * (p - q);
    ProductNonNegative(right - left, tail);
    assert TwoFactors(p, q, tail) == left * tail;
    assert TwoFactors(q, p, tail) == right * tail;
  }

  lemma StepBy(x: Severity, rest: seq<Severity>, w: real, p: real, left: real) returns (whole: real)
    requires p == Weight(x, w) && left == Residue(rest, DECAY * w)
    ensures whole == Residue([x] + rest, w) && whole == (1.0 - p) * left
  {
    ResidueStep(x, rest, w);
    whole := Residue([x] + rest, w);
  }

  lemma TwoSteps(x: Severity, y: Severity, rest: seq<Severity>, w: real, p: real, q: real, tail: real)
      returns (whole: real)
    requires p == Weight(x, w) && q == Weight(y, w) && tail == Residue(rest, DECAY * (DECAY * w))
    ensures whole == Residue([x] + ([y] + rest), w) && whole == TwoFactors(p, q, tail)
  {
    WeightDecays(y, w);
    var after := StepBy(y, rest, DECAY * w, DECAY * q, tail);
    whole := StepBy(x, [y] + rest, w, p, after);
    FactorsChain(p, q, tail, after, whole);
  }

  lemma FactorsChain(p: real, q: real, tail: real, after: real, whole: real)
    requires after == (1.0 - DECAY * q) * tail && whole == (1.0 - p) * after
    ensures whole == TwoFactors(p, q, tail)
  {}

  /** Exchanging two neighbours so that the stronger comes first leaves less. */
  lemma SwapNeighbours(x: Severity, y: Severity, rest: seq<Severity>, w: real)
    requires 0.0 <= w <= 1.0 && y <= x
    ensures Residue([x] + ([y] + rest), w) <= Residue([y] + ([x] + rest), w)
  {
    var p, q, tail := Weight(x, w), Weight(y, w), Residue(rest, DECAY * (DECAY * w));
    ResidueBounds(rest, DECAY * (DECAY * w));
    WeightMonotone(y, x, w);
    SwapFactors(p, q, tail);
    var better := TwoSteps(x, y, rest, w, p, q, tail);
    var worse := TwoSteps(y, x, rest, w, q, p, tail);
  }

  lemma HeadFirst(x: Severity, better: seq<Severity>, worse: seq<Severity>, w: real)
    requires 0.0 <= w <= 1.0 && Residue(better, DECAY * w) <= Residue(worse, DECAY * w)
    ensures Residue([x] + better, w) <= Residue([x] + worse, w)
  {
    ResidueStep(x, better, w);
    ResidueStep(x, worse, w);
    ResidueBounds(worse, DECAY * w);
    FactorsOrdered(x, x, w, Residue(better, DECAY * w), Residue(worse, DECAY * w));
  }

  lemma {:induction false} MoveToFront(x: Severity, a: seq<Severity>, b: seq<Severity>, w: real)
    requires 0.0 <= w <= 1.0 && AtMost(a, x)
    ensures Residue([x] + (a + b), w) <= Residue(a + [x] + b, w)
  {
    if a == [] {
      assert [x] + (a + b) == a + [x] + b;
    } else {
      var h, a' := a[0], a[1..];
      MoveToFront(x, a', b, DECAY * w);
      HeadFirst(h, [x] + (a' + b), a' + [x] + b, w);
      SwapNeighbours(x, h, a' + b, w);
      assert a == [h] + a';
      assert [h] + (a' + [x] + b) == a + [x] + b;
      assert [h] + (a' + b) == a + b;
    }
  }

  /** Rearrangement: listing the severities in descending order leaves the smallest remainder
      of all permutations, so the score is the largest any order could give. */
  lemma {:induction false} DescendingIsOptimal(d: seq<Severity>, p: seq<Severity>, w: real)
    requires 0.0 <= w <= 1.0
    requires Descending(d) && multiset(d) == multiset(p)
    ensures Residue(d, w) <= Residue(p, w)
  {
    if d == [] {
      assert |p| == |multiset(p)| == 0;
    } else {
      var x := d[0];
      var a, b := SplitAt(x, p, d);
      MoveToFront(x, a, b, w);
      DescendingIsOptimal(d[1..], a + b, DECAY * w);
      HeadFirst(x, d[1..], a + b, w);
      assert d == [x] + d[1..];
    }
  }

  lemma SplitAt(x: Severity, p: seq<Severity>, d: seq<Severity>) returns (a: seq<Severity>, b: seq<Severity>)
    requires Descending(d) && d != [] && d[0] == x && multiset(d) == multiset(p)
    ensures p == a + [x] + b && AtMost(a, x) && multiset(d[1..]) == multiset(a + b)
  {
    var j := IndexOf(p, x);
    a, b := p[..j], p[j + 1..];
    assert p == a + [x] + b;
    TakeOut(x, p, a, b);
    TakeOut(x, d, [], d[1..]);
    assert [] + d[1..] == d[1..] && [] + [x] + d[1..] == d;
    BoundedByHead(d, p, j);
  }

  lemma TakeOut(x: Severity, p: seq<Severity>, a: seq<Severity>, b: seq<Severity>)
    requires p == a + [x] + b
    ensures multiset(a + b) == multiset(p) - multiset{x}
  {}

  lemma BoundedByHead(d: seq<Severity>, p: seq<Severity>, j: nat)
    requires Descending(d) && d != [] && multiset(d) == multiset(p) && j <= |p|
    ensures AtMost(p[..j], d[0])
  {
    forall i | 0 <= i < j ensures p[i] <= d[0] {
      assert p[i] in multiset(d);
    }
  }

  lemma LeftIsLeast(s: seq<Severity>, p: seq<Severity>)
    requires multiset(s) == multiset(p)
    ensures Left(s) <= Residue(p, 1.0)
  {
    DescendingIsOptimal(Sorted(s), p, 1.0);
  }

  lemma LeftIsOrderFree(s: seq<Severity>, p: seq<Severity>)
    requires multiset(s) == multiset(p)
    ensures Left(s) == Left(p)
  {
    LeftIsLeast(s, Sorted(p));
    LeftIsLeast(p, Sorted(s));
  }

  /** No other order scores higher, and equal bags have equal scores. */
  lemma ScoreIsOrderFree(s: seq<Severity>, p: seq<Severity>)
    requires multiset(s) == multiset(p)
    ensures Value(s) == Value(p)
    ensures ValueOfLeft(Residue(p, 1.0)) <= Value(s)
  {
    LeftIsOrderFree(s, p);
    LeftIsLeast(s, p);
    ValueAntitone(Left(s), Residue(p, 1.0));
  }

  // ---- monotonicity

  lemma RoundMonotone(x: real, y: real)
    requires x <= y
    ensures RoundHalfEven(x) <= RoundHalfEven(y)
  {
    var a, b := RoundHalfEven(x), RoundHalfEven(y);
    assert a as real - b as real <= 1.0;
  }

  lemma ValueAntitone(x: real, y: real)
    requires x <= y
    ensures ValueOfLeft(y) <= ValueOfLeft(x)
  {
    RoundMonotone(100.0 - 100.0 * y, 100.0 - 100.0 * x);
  }

  /** Raising one severity never leaves more. */
  lemma RaiseOne(s: seq<Severity>, i: nat, y: Severity)
    requires i < |s| && s[i] <= y
    ensures Left(s[i := y]) <= Left(s)
  {
    var d := Sorted(s);
    var j := IndexOf(d, s[i]);
    SameUpdate(s, i, d, j, y);
    LeftIsLeast(s[i := y], d[j := y]);
    ResidueAntitone(d, d[j := y], 1.0);
  }

  lemma SameUpdate(s: seq<Severity>, i: nat, d: seq<Severity>, j: nat, y: Severity)
    requires multiset(s) == multiset(d) && i < |s| && j < |d| && s[i] == d[j]
    ensures multiset(s[i := y]) == multiset(d[j := y])
  {}

  lemma IndexOf(d: seq<Severity>, x: Severity) returns (j: nat)
    requires x in multiset(d)
    ensures j < |d| && d[j] == x
  {
    j :| 0 <= j < |d| && d[j] == x;
  }

  /** Adding one more finding never leaves more, although it may push weaker ones to a later rank. */
  lemma AddOne(s: seq<Severity>, y: Severity)
    ensures Left(s + [y]) <= Left(s)
  {
    var p := Sorted(s) + [y];
    assert multiset(p) == multiset(s + [y]);
    LeftIsLeast(s + [y], p);
    ResidueAntitone(Sorted(s), p, 1.0);
  }

  /** `b` arises from `a` by raising severities and adding findings, up to order. */
  ghost predicate Outweighs(b: seq<Severity>, a: seq<Severity>) {
    exists c: seq<Severity> :: multiset(c) == multiset(b) && Covers(c, a)
  }

  predicate Covers(c: seq<Severity>, a: seq<Severity>) {
    |a| <= |c| && forall i :: 0 <= i < |a| ==> a[i] <= c[i]
  }

  /** One step from `c` down to `a`: drop an extra finding, or lower the k-th one. */
  function StepDown(a: seq<Severity>, c: seq<Severity>, k: nat): (c': seq<Severity>)
    requires Covers(c, a) && 0 < k <= |c| && (|c| > |a| ==> k == |c|)
    requires forall i :: k <= i < |a| ==> a[i] == c[i]
    ensures Covers(c', a) && k - 1 <= |c'| && (|c'| > |a| ==> k - 1 == |c'|)
    ensures forall i :: k - 1 <= i < |a| ==> a[i] == c'[i]
  {
    if |c| > |a| then c[..k - 1] else c[k - 1 := a[k - 1]]
  }

  lemma StepDownLeavesMore(a: seq<Severity>, c: seq<Severity>, k: nat)
    requires Covers(c, a) && 0 < k <= |c| && (|c| > |a| ==> k == |c|)
    requires forall i :: k <= i < |a| ==> a[i] == c[i]
    ensures Left(c) <= Left(StepDown(a, c, k))
  {
    var c' := StepDown(a, c, k);
    if |c| > |a| {
      assert c == c' + [c[k - 1]];
      AddOne(c', c[k - 1]);
    } else {
      assert c == c'[k - 1 := c[k - 1]];
      RaiseOne(c', k - 1, c[k - 1]);
    }
  }

  lemma {:induction false} CoveringLeavesLess(a: seq<Severity>, c: seq<Severity>, k: nat)
    requires Covers(c, a) && k <= |c| && (|c| > |a| ==> k == |c|)
    requires forall i :: k <= i < |a| ==> a[i] == c[i]
    ensures Left(c) <= Left(a)
    decreases k
  {
    if k == 0 {
      assert a == c;
    } else {
      StepDownLeavesMore(a, c, k);
      CoveringLeavesLess(a, StepDown(a, c, k), k - 1);
    }
  }

  /** Monotonicity: adding findings and raising severities never lowers the score or the level. */
  lemma ScoreMonotone(a: seq<Severity>, b: seq<Severity>)
    requires Outweighs(b, a)
    ensures Value(a) <= Value(b)
    ensures LevelOf(Value(a)) == Malicious ==> LevelOf(Value(b)) == Malicious
    ensures LevelOf(Value(b)) == Benign ==> LevelOf(Value(a)) == Benign
  {
    var c: seq<Severity> :| multiset(c) == multiset(b) && Covers(c, a);
    CoverMonotone(a, c);
    ScoreIsOrderFree(c, b);
    LevelExactly(Value(a));
    LevelExactly(Value(b));
  }

  lemma CoverMonotone(a: seq<Severity>, c: seq<Severity>)
    requires Covers(c, a)
    ensures Value(a) <= Value(c)
  {
    CoveringLeavesLess(a, c, |c|);
    ValueAntitone(Left(c), Left(a));
  }

  // ---- weak findings never add up

  /** `n` explicit factors of severity `t`, then one Bernoulli step for the whole tail:
      the ranks sum to w / (1 - 3/5), so severity t costs at most t*w/40 over any length. */
  function Floor(n: nat, t: Severity, w: real): real {
    if n == 0 then 1.0 - t as real * w / 40.0
    else (1.0 - Weight(t, w)) * Floor(n - 1, t, DECAY * w)
  }

  lemma {:induction false} FloorAtMostOne(n: nat, t: Severity, w: real)
    requires 0.0 <= w <= 1.0
    ensures Floor(n, t, w) <= 1.0
  {
    if n > 0 {
      WeightBounds(t, w);
      FloorAtMostOne(n - 1, t, DECAY * w);
      ProductMonotone(1.0 - Weight(t, w), 1.0, Floor(n - 1, t, DECAY * w), 1.0);
    } else {
      ProductNonNegative(t as real, w);
    }
  }

  lemma BernoulliStep(gone: real, most: real, rest: real)
    requires 0.0 <= gone <= 1.0 && gone <= most / 100.0 && 0.0 <= most && rest >= 1.0 - DECAY * most / 40.0
    ensures (1.0 - gone) * rest >= 1.0 - most / 40.0
  {
    var tail := DECAY * most / 40.0;
    ProductNonNegative(1.0 - gone, rest - (1.0 - tail));
    ProductNonNegative(gone, tail);
    assert (1.0 - gone) * rest == (1.0 - gone) * (rest - (1.0 - tail)) + 1.0 - gone - tail + gone * tail;
  }

  /** The tail estimate, for lists of every length. */
  lemma {:induction false} GeometricTail(s: seq<Severity>, t: Severity, w: real)
    requires 0.0 <= w <= 1.0 && AtMost(s, t)
    ensures Residue(s, w) >= 1.0 - t as real * w / 40.0
  {
    ProductNonNegative(t as real, w);
    if s != [] {
      GeometricTail(s[1..], t, DECAY * w);
      WeightMonotone(s[0], t, w);
      WeightBounds(s[0], w);
      assert t as real * (DECAY * w) == DECAY * (t as real * w);
      BernoulliStep(Weight(s[0], w), t as real * w, Residue(s[1..], DECAY * w));
    }
  }

  lemma {:induction false} ResidueAboveFloor(n: nat, s: seq<Severity>, t: Severity, w: real)
    requires 0.0 <= w <= 1.0 && AtMost(s, t)
    ensures Residue(s, w) >= Floor(n, t, w)
  {
    if n == 0 {
      GeometricTail(s, t, w);
    } else if s == [] {
      FloorAtMostOne(n, t, w);
    } else {
      ResidueAboveFloor(n - 1, s[1..], t, DECAY * w);
      assert s == [s[0]] + s[1..];
      ResidueBounds(s[1..], DECAY * w);
      ReplaceHead(s[0], s[1..], t, Floor(n - 1, t, DECAY * w), w);
    }
  }

  lemma ReplaceHead(x: Severity, rest: seq<Severity>, t: Severity, low: real, w: real)
    requires 0.0 <= w <= 1.0 && x <= t && low <= Residue(rest, DECAY * w)
    requires 0.0 <= Residue(rest, DECAY * w)
    ensures (1.0 - Weight(t, w)) * low <= Residue([x] + rest, w)
  {
    FactorsOrdered(x, t, w, low, Residue(rest, DECAY * w));
    ResidueStep(x, rest, w);
  }

  lemma SortedAtMost(s: seq<Severity>, t: int)
    requires AtMost(s, t)
    ensures AtMost(Sorted(s), t)
  {
    forall i | 0 <= i < |Sorted(s)| ensures Sorted(s)[i] <= t {
      assert Sorted(s)[i] in multiset(s);
    }
  }

  lemma WeakLeaves(s: seq<Severity>)
    requires AtMost(s, 40)
    ensures Left(s) > 0.30602
  {
    SortedAtMost(s, 40);
    ResidueAboveFloor(3, Sorted(s), 40, 1.0);
    assert Floor(0, 40, 0.216) == 0.784;
    assert Floor(1, 40, 0.36) == 0.856 * 0.784;
    assert Floor(2, 40, 0.6) == 0.76 * (0.856 * 0.784);
    assert Floor(3, 40, 1.0) > 0.30602;
  }

  lemma VeryWeakLeaves(s: seq<Severity>)
    requires AtMost(s, 16)
    ensures Left(s) > 0.65507
  {
    SortedAtMost(s, 16);
    ResidueAboveFloor(4, Sorted(s), 16, 1.0);
    assert Floor(0, 16, 0.1296) == 0.94816;
    assert Floor(1, 16, 0.216) == 0.96544 * 0.94816;
    assert Floor(2, 16, 0.36) == 0.9424 * (0.96544 * 0.94816);
    assert Floor(3, 16, 0.6) == 0.904 * (0.9424 * (0.96544 * 0.94816));
    assert Floor(4, 16, 1.0) > 0.65507;
  }

  /** Weak findings stay below the cuts even if the remainder is not computed exactly: an error of
      0.1 in 100, or 0.005 for the lower cut, would not lift them over. */
  lemma WeakTolerateErrors(s: seq<Severity>, computed: real)
    ensures AtMost(s, 40) && -0.1 <= computed - 100.0 * Left(s) <= 0.1 ==>
              LevelOf(RoundHalfEven(100.0 - computed)) != Malicious
    ensures AtMost(s, 16) && -0.005 <= computed - 100.0 * Left(s) <= 0.005 ==>
              LevelOf(RoundHalfEven(100.0 - computed)) == Benign
  {
    LevelExactly(RoundHalfEven(100.0 - computed));
    if AtMost(s, 40) { WeakLeaves(s); }
    if AtMost(s, 16) { VeryWeakLeaves(s); }
  }

  lemma WeakNeverMalicious(s: seq<Severity>)
    requires AtMost(s, 40)
    ensures LevelOf(Value(s)) != Malicious
  {
    WeakTolerateErrors(s, 100.0 * Left(s));
  }

  lemma VeryWeakNeverSuspicious(s: seq<Severity>)
    requires AtMost(s, 16)
    ensures LevelOf(Value(s)) == Benign
  {
    WeakTolerateErrors(s, 100.0 * Left(s));
  }

  function Repeat(t: Severity, n: nat): seq<Severity> {
    seq(n, _ => t)
  }

  /** What `n` findings of severity `t` leave. */
  function Repeated(n: nat, t: Severity): real {
    if n == 0 then 1.0 else Repeated(n - 1, t) * RankFactor(t, n - 1, 1.0)
  }

  lemma {:induction false} LeftOfRepeat(n: nat, t: Severity)
    ensures Left(Repeat(t, n)) == Residue(Repeat(t, n), 1.0) == Repeated(n, t)
  {
    var d := Sorted(Repeat(t, n));
    assert d == Repeat(t, n) by {
      assert forall i :: 0 <= i < |d| ==> d[i] in multiset(Repeat(t, n));
    }
    ResidueOfRepeat(n, t);
  }

  lemma AppendOne(s: seq<Severity>, x: Severity, n: nat, w: real)
    requires |s| == n
    ensures Residue(s + [x], w) == Residue(s, w) * RankFactor(x, n, w)
  {
    ResidueAppend(s, x, w);
  }

  lemma RepeatAppends(n: nat, t: Severity)
    requires n > 0
    ensures Repeat(t, n) == Repeat(t, n - 1) + [t] && |Repeat(t, n - 1)| == n - 1
  {}

  lemma {:induction false} ResidueOfRepeat(n: nat, t: Severity)
    ensures Residue(Repeat(t, n), 1.0) == Repeated(n, t)
  {
    if n > 0 {
      ResidueOfRepeat(n - 1, t);
      RepeatAppends(n, t);
      AppendOne(Repeat(t, n - 1), t, n - 1, 1.0);
    }
  }

  /** Of all lists of length `n` with severities up to `t`, the constant one scores highest. */
  lemma RepeatIsWorst(s: seq<Severity>, t: Severity, n: nat)
    requires AtMost(s, t) && |s| <= n
    ensures Value(s) <= Value(Repeat(t, n))
  {
    CoverMonotone(s, Repeat(t, n));
  }

  lemma ValueOfRepeat(n: nat, t: Severity, v: int)
    requires v as real - 0.5 < 100.0 - 100.0 * Repeated(n, t) < v as real + 0.5
    ensures Value(Repeat(t, n)) == v
  {
    LeftOfRepeat(n, t);
  }

  lemma TenOf41()
    ensures Value(Repeat(41, 10)) == 70 && Value(Repeat(41, 9)) == 69
  {
    RepeatedOf41();
    ValueOfRepeat(10, 41, 70);
    ValueOfRepeat(9, 41, 69);
  }

  lemma Decays()
    ensures Decay(0) == 1.0 && Decay(1) == 0.6 && Decay(2) == 0.36 && Decay(3) == 0.216
    ensures Decay(4) == 0.1296 && Decay(5) == 0.07776 && Decay(6) == 0.046656
    ensures Decay(7) == 0.0279936 && Decay(8) == 0.01679616 && Decay(9) == 0.010077696
  {
    assert Decay(2) == 0.36;
    assert Decay(4) == 0.1296;
    assert Decay(6) == 0.046656;
    assert Decay(8) == 0.01679616;
  }

  /** From bounds on what `n` findings leave to bounds on what one more leaves. */
  lemma RepeatedNext(n: nat, t: Severity, lo: real, hi: real, lo': real, hi': real)
    requires lo <= Repeated(n, t) <= hi && 0.0 <= Decay(n) <= 1.0
    requires lo' <= lo * (1.0 - t as real / 100.0 * Decay(n)) && hi * (1.0 - t as real / 100.0 * Decay(n)) <= hi'
    requires 0.0 <= lo
    ensures lo' <= Repeated(n + 1, t) <= hi'
  {
    var keep := RankFactor(t, n, 1.0);
    RankFactorIs(t, n, 1.0, Decay(n));
    assert keep == 1.0 - t as real / 100.0 * Decay(n);
    ProductMonotone(t as real / 100.0, 1.0, Decay(n), 1.0);
    ProductMonotone(lo, Repeated(n, t), keep, keep);
    ProductMonotone(Repeated(n, t), hi, keep, keep);
  }

  lemma RepeatedOf41()
    ensures 0.303 < Repeated(10, 41) < 0.304
    ensures 0.3050 < Repeated(9, 41) < 0.306
  {
    Decays();
    RepeatedNext(0, 41, 1.0, 1.0, 0.5899999, 0.5900001);
    RepeatedNext(1, 41, 0.5899999, 0.5900001, 0.4448598, 0.4448602);
    RepeatedNext(2, 41, 0.4448598, 0.4448602, 0.3791983, 0.3791990);
    RepeatedNext(3, 41, 0.3791983, 0.379199, 0.3456163, 0.3456173);
    RepeatedNext(4, 41, 0.3456163, 0.3456173, 0.3272515, 0.3272527);
    RepeatedNext(5, 41, 0.3272515, 0.3272527, 0.3168180, 0.3168195);
    RepeatedNext(6, 41, 0.316818, 0.3168195, 0.3107575, 0.3107592);
    RepeatedNext(7, 41, 0.3107575, 0.3107592, 0.3071907, 0.3071926);
    RepeatedNext(8, 41, 0.3071907, 0.3071926, 0.3050751, 0.3050773);
    RepeatedNext(9, 41, 0.3050751, 0.3050773, 0.3038144, 0.3038169);
  }

  lemma SixOf17()
    ensures Value(Repeat(17, 6)) == 35 && Value(Repeat(17, 5)) == 34
  {
    RepeatedOf17();
    ValueOfRepeat(6, 17, 35);
    ValueOfRepeat(5, 17, 34);
  }

  lemma RepeatedOf17()
    ensures 0.650 < Repeated(6, 17) < 0.651
    ensures 0.659 < Repeated(5, 17) < 0.660
  {
    Decays();
    RepeatedNext(0, 17, 1.0, 1.0, 0.8299999, 0.8300001);
    RepeatedNext(1, 17, 0.8299999, 0.8300001, 0.7453398, 0.7453402);
    RepeatedNext(2, 17, 0.7453398, 0.7453402, 0.6997249, 0.6997255);
    RepeatedNext(3, 17, 0.6997249, 0.6997255, 0.6740309, 0.6740317);
    RepeatedNext(4, 17, 0.6740309, 0.6740317, 0.6591805, 0.6591816);
    RepeatedNext(5, 17, 0.6591805, 0.6591816, 0.6504665, 0.6504679);
  }

  /** Some list of findings, however long, of severity at most `t` is malicious. */
  ghost predicate CanBeMalicious(t: Severity) {
    exists s: seq<Severity> :: AtMost(s, t) && LevelOf(Value(s)) == Malicious
  }

  /** Some such list is not benign. */
  ghost predicate CanLeaveBenign(t: Severity) {
    exists s: seq<Severity> :: AtMost(s, t) && LevelOf(Value(s)) != Benign
  }

  /** "Weak findings never add up", sharply: findings of severity at most `t` can be malicious
      together exactly when `t` is 41 or more. */
  lemma WeakFindingsThreshold(t: Severity)
    ensures CanBeMalicious(t) <==> t >= 41
  {
    if t >= 41 {
      TenOf41();
      LevelExactly(70);
      var s := SomeFindings(41, 10, 70);
      assert AtMost(s, t) && LevelOf(Value(s)) == Malicious;
    } else {
      forall s: seq<Severity> | AtMost(s, t) ensures LevelOf(Value(s)) != Malicious {
        WeakNeverMalicious(s);
      }
    }
  }

  /** They can leave the benign range exactly when `t` is 17 or more. */
  lemma HintsThreshold(t: Severity)
    ensures CanLeaveBenign(t) <==> t >= 17
  {
    if t >= 17 {
      SixOf17();
      LevelExactly(35);
      var s := SomeFindings(17, 6, 35);
      assert AtMost(s, t) && LevelOf(Value(s)) != Benign;
    } else {
      forall s: seq<Severity> | AtMost(s, t) ensures LevelOf(Value(s)) == Benign {
        VeryWeakNeverSuspicious(s);
      }
    }
  }

  lemma SomeFindings(t: Severity, n: nat, v: int) returns (s: seq<Severity>)
    requires Value(Repeat(t, n)) == v
    ensures AtMost(s, t) && Value(s) == v
  {
    s := Repeat(t, n);
  }

  /** At 41 it takes ten findings: nine of them never suffice. */
  lemma NineOf41AreNotEnough(s: seq<Severity>)
    requires AtMost(s, 41) && LevelOf(Value(s)) == Malicious
    ensures |s| >= 10
  {
    LevelExactly(Value(s));
    if |s| <= 9 {
      RepeatIsWorst(s, 41, 9);
      TenOf41();
    }
  }

  // ---- the strongest finding

  function Top(s: seq<Severity>): (t: Severity)
    ensures AtMost(s, t) && (s != [] ==> t in s) && (s == [] ==> t == 0)
  {
    if s == [] then 0 else
      var rest := Top(s[1..]);
      if s[0] >= rest then s[0] else rest
  }

  /** The strongest finding counts in full, and all the others together can at most multiply
      it by 5/2; so a finding of 70 or more is malicious alone and in any company. */
  lemma TopFindingDominates(s: seq<Severity>, top: Severity)
    requires AtMost(s, top) && top in s
    ensures top <= Value(s) <= 100 && Value(s) <= RoundHalfEven(2.5 * top as real)
    ensures top >= 70 ==> LevelOf(Value(s)) == Malicious
    ensures top >= 35 ==> LevelOf(Value(s)) != Benign
  {
    LeftBounds(s, top);
    ValueWithin(Left(s), top);
    ContainedFindings(s, top);
    LevelExactly(Value(s));
  }

  lemma ValueWithin(left: real, t: Severity)
    requires 1.0 - t as real / 40.0 <= left && 0.0 <= left <= 1.0
    ensures 0 <= ValueOfLeft(left) <= 100 && ValueOfLeft(left) <= RoundHalfEven(2.5 * t as real)
  {
    RoundMonotone(100.0 - 100.0 * left, 2.5 * t as real);
    RoundMonotone(100.0 - 100.0 * left, 100.0);
    RoundMonotone(0.0, 100.0 - 100.0 * left);
  }

  lemma LeftBounds(s: seq<Severity>, t: Severity)
    requires AtMost(s, t)
    ensures 1.0 - t as real / 40.0 <= Left(s) && 0.0 <= Left(s) <= 1.0
  {
    SortedAtMost(s, t);
    ResidueBounds(Sorted(s), 1.0);
    GeometricTail(Sorted(s), t, 1.0);
    assert t as real * 1.0 == t as real;
  }

  lemma ContainedFindings(s: seq<Severity>, t: Severity)
    requires t in s
    ensures t <= Value(s)
  {
    var j :| 0 <= j < |s| && s[j] == t;
    var rest := MoveOut(s, j);
    assert Covers([t] + rest, [t]);
    ScoreMonotone([t], s);
    ValueOfOne(t);
  }

  lemma ValueOfOne(t: Severity)
    ensures Value([t]) == t
  {
    assert Repeat(t, 1) == [t];
    assert Repeated(1, t) == 1.0 - t as real / 100.0;
    ValueOfRepeat(1, t, t);
  }

  /** A finding on its own is judged by its severity. */
  lemma LevelOfOne(v: Severity)
    ensures LevelOf(Value([v])) == Malicious <==> v >= 70
    ensures LevelOf(Value([v])) == Benign <==> v < 35
  {
    ValueOfOne(v);
    LevelExactly(v);
  }

  /** With the strongest severity that ships, 85, the score stops at 97, and 97 is reached. */
  lemma ShippedCeiling(s: seq<Severity>)
    requires AtMost(s, 85)
    ensures Value(s) <= 97 == Value(Repeat(85, 9))
  {
    SortedAtMost(s, 85);
    ResidueAboveFloor(6, Sorted(s), 85, 1.0);
    FloorOf85();
    RoundMonotone(100.0 - 100.0 * Left(s), 97.45);
    RepeatedOf85();
    ValueOfRepeat(9, 85, 97);
  }

  lemma FloorOf85()
    ensures Floor(6, 85, 1.0) > 0.0255
  {
    assert Floor(0, 85, 0.046656) == 0.900856;
    assert Floor(1, 85, 0.07776) > 0.8413129;
    assert Floor(2, 85, 0.1296) > 0.7486338;
    assert Floor(3, 85, 0.216) > 0.6111846;
    assert Floor(4, 85, 0.36) > 0.4241621;
    assert Floor(5, 85, 0.6) > 0.2078393;
    assert Floor(6, 85, 1.0) > 0.0311758;
  }

  lemma RepeatedOf85()
    ensures 0.031 < Repeated(9, 85) < 0.033
  {
    Decays();
    RepeatedNext(0, 85, 1.0, 1.0, 0.1499999, 0.1500001);
    RepeatedNext(1, 85, 0.1499999, 0.1500001, 0.0734998, 0.0735002);
    RepeatedNext(2, 85, 0.0734998, 0.0735002, 0.0510087, 0.0510093);
    RepeatedNext(3, 85, 0.0510087, 0.0510093, 0.0416434, 0.0416441);
    RepeatedNext(4, 85, 0.0416434, 0.0416441, 0.0370558, 0.0370567);
    RepeatedNext(5, 85, 0.0370558, 0.0370567, 0.0346064, 0.0346076);
    RepeatedNext(6, 85, 0.0346064, 0.0346076, 0.0332338, 0.0332353);
    RepeatedNext(7, 85, 0.0332338, 0.0332353, 0.0324429, 0.0324446);
    RepeatedNext(8, 85, 0.0324429, 0.0324446, 0.0319796, 0.0319815);
  }

  /** Two findings of 65 and 60 score at least 78 in any company. */
  lemma PairOf65And60(s: seq<Severity>, i: nat, j: nat)
    requires i < |s| && j < |s| && i != j && s[i] == 65 && s[j] == 60
    ensures Value(s) >= 78
  {
    var c := BothInFront(s, i, j);
    assert Covers(c, [65, 60]);
    ScoreMonotone([65, 60], s);
    ValueOf65And60();
  }

  lemma BothInFront(s: seq<Severity>, i: nat, j: nat) returns (c: seq<Severity>)
    requires i < |s| && j < |s| && i != j
    ensures multiset(c) == multiset(s) && |c| >= 2 && c[0] == s[i] && c[1] == s[j]
  {
    var rest := MoveOut(s, i);
    var k := if j < i then j else j - 1;
    StillThere(s, i, j, k, rest);
    var rest' := MoveOut(rest, k);
    c := [s[i]] + ([s[j]] + rest');
    SameUnderHead(s[i], [s[j]] + rest', rest);
  }

  lemma StillThere(s: seq<Severity>, i: nat, j: nat, k: nat, rest: seq<Severity>)
    requires i < |s| && j < |s| && i != j && rest == s[..i] + s[i + 1..] && k == if j < i then j else j - 1
    ensures k < |rest| && rest[k] == s[j]
  {}

  lemma SameUnderHead(x: Severity, a: seq<Severity>, b: seq<Severity>)
    requires multiset(a) == multiset(b)
    ensures multiset([x] + a) == multiset([x] + b)
  {}

  lemma MoveOut(s: seq<Severity>, i: nat) returns (rest: seq<Severity>)
    requires i < |s|
    ensures multiset([s[i]] + rest) == multiset(s) && rest == s[..i] + s[i + 1..]
  {
    rest := s[..i] + s[i + 1..];
    assert s == s[..i] + ([s[i]] + s[i + 1..]);
  }

  lemma ValueOf65And60()
    ensures Value([65, 60]) == 78
  {
    SortedPair(65, 60);
    ResidueOfPair(65, 60);
    assert Left([65, 60]) == 0.224;
  }

  lemma SortedPair(x: Severity, y: Severity)
    requires x >= y
    ensures Sorted([x, y]) == [x, y]
  {
    assert [x, y][1..] == [y] && [y][1..] == [];
  }

  lemma ResidueOfPair(x: Severity, y: Severity)
    ensures Residue([x, y], 1.0) == (1.0 - x as real / 100.0) * (1.0 - y as real * 0.6 / 100.0)
  {
    ResidueStep(x, [y], 1.0);
    ResidueStep(y, [], 0.6);
    assert [x] + [y] == [x, y] && [y] + [] == [y];
  }
}
