/** The signature engine: rules turn observations into findings, findings into a verdict. */
module Signatures {
  import opened Common
  import opened Scoring

  const RULE_ERROR := "RULE_ERROR"
  const SKIPPED := "skipped"
  const MAX_EVIDENCE := 12
  const MAX_REASONS := 5

  datatype Signature = Signature(id: string, name: string, severity: Severity, description: string,
                                 evidence: seq<string>)

  /** What calling a rule does: it raises, finds nothing, or returns evidence. */
  datatype Outcome = Raised(error: string) | Silent | Hit(evidence: seq<string>)

  datatype Rule<!O> = Rule(id: string, name: string, severity: Severity, description: string,
                           detect: O -> Outcome)

  function NonEmpty(s: seq<string>): seq<string> {
    if s == [] then [] else (if s[0] == "" then [] else [s[0]]) + NonEmpty(s[1..])
  }

  /** What one rule appends to the fired list. */
  function Fire<O>(rule: Rule<O>, obs: O): seq<Signature> {
    match rule.detect(obs)
    case Raised(error) =>
      [Signature(RULE_ERROR, "rule " + rule.id + " failed", 0, SKIPPED, [error])]
    case Silent => []
    case Hit(evidence) =>
      [Signature(rule.id, rule.name, rule.severity, rule.description, Take(NonEmpty(evidence), MAX_EVIDENCE))]
  }

  /** Everything the rules append, in rule order. */
  function FireAll<O>(rules: seq<Rule<O>>, obs: O): seq<Signature> {
    if rules == [] then [] else FireAll(rules[..|rules| - 1], obs) + Fire(rules[|rules| - 1], obs)
  }

  lemma {:induction false} NonEmptyIsFilter(s: seq<string>)
    ensures NonEmpty(s) == Filter(s, (e: string) => e != "")
  {
    if s != [] {
      NonEmptyIsFilter(s[1..]);
      FilterFirst(s[0], s[1..], (e: string) => e != "");
      assert s == [s[0]] + s[1..];
    }
  }

  /** What a rule leaves behind: its own signature with the first twelve pieces of evidence that are not empty,
      nothing if it is silent, and a failure of severity 0 that names it if it raises. */
  lemma FireExactly<O>(rule: Rule<O>, obs: O)
    ensures match rule.detect(obs)
            case Silent => Fire(rule, obs) == []
            case Raised(error) =>
              && |Fire(rule, obs)| == 1 && Fire(rule, obs)[0].id == "RULE_ERROR" && Fire(rule, obs)[0].severity == 0
              && Fire(rule, obs)[0].name == "rule " + rule.id + " failed" && Fire(rule, obs)[0].evidence == [error]
            case Hit(evidence) =>
              && |Fire(rule, obs)| == 1
              && Fire(rule, obs)[0] == Signature(rule.id, rule.name, rule.severity, rule.description,
                                                 Take(Filter(evidence, (e: string) => e != ""), 12))
  {
    if rule.detect(obs).Hit? { NonEmptyIsFilter(rule.detect(obs).evidence); }
  }

  // ---- sorted(..., key=lambda s: -s["severity"])

  predicate Ranked(s: seq<Signature>) {
    forall i, j :: 0 <= i < j < |s| ==> s[i].severity >= s[j].severity
  }

  function StableSort(s: seq<Signature>): (r: seq<Signature>)
    ensures Ranked(r)
  {
    if s == [] then [] else Place(s[0], StableSort(s[1..]))
  }

  /** `x` goes before everything that is not stronger. */
  function Place(x: Signature, s: seq<Signature>): (r: seq<Signature>)
    requires Ranked(s)
    ensures Ranked(r) && r != []
    ensures r[0].severity == if s == [] || x.severity >= s[0].severity then x.severity else s[0].severity
  {
    if s == [] || x.severity >= s[0].severity then [x] + s else [s[0]] + Place(x, s[1..])
  }

  lemma {:induction false} PlacePermutes(x: Signature, s: seq<Signature>)
    requires Ranked(s)
    ensures multiset(Place(x, s)) == multiset([x] + s)
  {
    if s != [] && x.severity < s[0].severity {
      PlacePermutes(x, s[1..]);
      assert s == [s[0]] + s[1..];
    }
  }

  lemma {:induction false} SortPermutes(s: seq<Signature>)
    ensures multiset(StableSort(s)) == multiset(s)
  {
    if s != [] {
      SortPermutes(s[1..]);
      PlacePermutes(s[0], StableSort(s[1..]));
      assert s == [s[0]] + s[1..];
    }
  }

  /** The findings of one severity, in order. */
  function OfSeverity(s: seq<Signature>, v: Severity): seq<Signature> {
    if s == [] then [] else (if s[0].severity == v then [s[0]] else []) + OfSeverity(s[1..], v)
  }

  lemma {:induction false} PlaceIsStable(x: Signature, s: seq<Signature>, v: Severity)
    requires Ranked(s)
    ensures OfSeverity(Place(x, s), v) == OfSeverity([x] + s, v)
  {
    assert ([x] + s)[1..] == s;
    if s != [] && x.severity < s[0].severity {
      var rest := Place(x, s[1..]);
      PlaceIsStable(x, s[1..], v);
      assert ([s[0]] + rest)[1..] == rest;
      assert ([x] + s[1..])[1..] == s[1..];
    }
  }

  /** Findings of equal severity keep their rule order. */
  lemma {:induction false} SortIsStable(s: seq<Signature>, v: Severity)
    ensures OfSeverity(StableSort(s), v) == OfSeverity(s, v)
  {
    if s != [] {
      SortIsStable(s[1..], v);
      var rest := StableSort(s[1..]);
      PlaceIsStable(s[0], rest, v);
      assert ([s[0]] + rest)[1..] == rest;
    }
  }

  lemma {:induction false} OfSeverityEmpty(s: seq<Signature>, v: Severity)
    requires forall i :: 0 <= i < |s| ==> s[i].severity < v
    ensures OfSeverity(s, v) == []
  {
    if s != [] { OfSeverityEmpty(s[1..], v); }
  }

  lemma EmptyTogether(r: seq<Signature>, q: seq<Signature>)
    requires r == []
    requires forall v: Severity :: OfSeverity(r, v) == OfSeverity(q, v)
    ensures q == []
  {
    if q != [] {
      var v := q[0].severity;
      var mine, other := OfSeverity(q, v), OfSeverity(r, v);
      assert false;
    }
  }

  /** Being ranked and keeping rule order within each severity determines the result. */
  lemma {:induction false} StableSortIsUnique(r: seq<Signature>, q: seq<Signature>)
    requires Ranked(r) && Ranked(q)
    requires forall v: Severity :: OfSeverity(r, v) == OfSeverity(q, v)
    ensures r == q
  {
    if r == [] || q == [] {
      if r != [] { EmptyTogether(q, r); }
      if q != [] { EmptyTogether(r, q); }
    } else {
      var a, b := r[0].severity, q[0].severity;
      assert OfSeverity(r, a) == OfSeverity(q, a) && OfSeverity(r, b) == OfSeverity(q, b);
      if a > b { OfSeverityEmpty(q, a); }
      if b > a { OfSeverityEmpty(r, b); }
      assert r[0] == OfSeverity(r, a)[0] == q[0];
      forall v: Severity ensures OfSeverity(r[1..], v) == OfSeverity(q[1..], v) {
        assert OfSeverity(r, v) == OfSeverity(q, v);
        assert OfSeverity(r[1..], v) == OfSeverity(r, v)[if a == v then 1 else 0..];
      }
      StableSortIsUnique(r[1..], q[1..]);
      assert r == [r[0]] + r[1..] && q == [q[0]] + q[1..];
    }
  }

  method Evaluate<O>(rules: seq<Rule<O>>, obs: O) returns (ranked: seq<Signature>)
    ensures Ranked(ranked) && multiset(ranked) == multiset(FireAll(rules, obs))
    ensures forall v: Severity :: OfSeverity(ranked, v) == OfSeverity(FireAll(rules, obs), v)
    ensures ranked == StableSort(FireAll(rules, obs))
  {
    var fired: seq<Signature> := [];
    for i := 0 to |rules|
      invariant fired == FireAll(rules[..i], obs)
    {
      assert rules[..i + 1][..i] == rules[..i];
      match rules[i].detect(obs) {
        case Raised(error) =>
          fired := fired + [Signature(RULE_ERROR, "rule " + rules[i].id + " failed", 0, SKIPPED, [error])];
        case Silent =>
        case Hit(evidence) =>
          fired := fired + [Signature(rules[i].id, rules[i].name, rules[i].severity, rules[i].description,
                                      Take(NonEmpty(evidence), MAX_EVIDENCE))];
      }
    }
    assert rules[..|rules|] == rules;
    ranked := StableSort(fired);
    SortPermutes(fired);
    forall v: Severity ensures OfSeverity(ranked, v) == OfSeverity(fired, v) {
      SortIsStable(fired, v);
    }
  }

  // ---- score

  /** The findings that are not rule failures. */
  function Findings(s: seq<Signature>): seq<Signature> {
    if s == [] then []
    else if s[0].id != RULE_ERROR then [s[0]] + Findings(s[1..])
    else Findings(s[1..])
  }

  lemma {:induction false} FindingsAreFilter(s: seq<Signature>)
    ensures Findings(s) == Filter(s, (x: Signature) => x.id != "RULE_ERROR")
  {
    if s != [] {
      FindingsAreFilter(s[1..]);
      FilterFirst(s[0], s[1..], (x: Signature) => x.id != "RULE_ERROR");
      assert s == [s[0]] + s[1..];
    }
  }

  function Severities(s: seq<Signature>): (v: seq<Severity>)
    ensures |v| == |s| && forall i :: 0 <= i < |s| ==> v[i] == s[i].severity
  {
    if s == [] then [] else [s[0].severity] + Severities(s[1..])
  }

  function Corroborating(s: seq<Severity>): nat {
    if s == [] then 0 else (if s[0] >= 40 then 1 else 0) + Corroborating(s[1..])
  }

  function Min(a: real, b: real): real {
    if a <= b then a else b
  }

  /** Two decimals, as `round(x, 2)`. */
  function Round2(x: real): real {
    RoundHalfEven(100.0 * x) as real / 100.0
  }

  function Strength(top: Severity, corroborating: nat): real {
    0.35 + 0.45 * (top as real / 100.0) + 0.20 * ((if corroborating < 4 then corroborating else 4) as real / 4.0)
  }

  function Confidence(s: seq<Severity>): real {
    if s == [] then 0.5 else Round2(Min(0.95, Strength(Top(s), Corroborating(s))))
  }

  /** The ranked loop of `score`. */
  method Remainder(ranked: seq<Signature>) returns (remaining: real)
    ensures remaining == Remaining(Severities(ranked), |ranked|)
  {
    ghost var all := Severities(ranked);
    remaining := 100.0;
    for rank := 0 to |ranked|
      invariant remaining == Remaining(all, rank)
    {
      var weight := ranked[rank].severity as real / 100.0 * Decay(rank);
      OneMoreRank(all, rank, remaining, weight);
      remaining := remaining * (1.0 - weight);
    }
  }

  /** `score`: the ranked loop computes the order-free value of the findings. */
  method Score(signatures: seq<Signature>) returns (value: int, level: Level, confidence: real)
    ensures value == Value(Severities(Findings(signatures)))
    ensures level == LevelOf(value)
    ensures (level == Malicious <==> value >= 70) && (level == Benign <==> value < 35)
    ensures confidence == Confidence(Severities(Findings(signatures)))
  {
    var findings := Findings(signatures);
    var ranked := StableSort(findings);
    var remaining := Remainder(ranked);
    FinalValue(findings, remaining);
    value := RoundHalfEven(100.0 - remaining);
    if value >= MALICIOUS_AT {
      level := Malicious;
    } else if value >= SUSPICIOUS_AT {
      level := Suspicious;
    } else {
      level := Benign;
    }
    var top := Top(Severities(findings));
    var corroboration := Corroborating(Severities(findings));
    confidence := Round2(Min(0.95, Strength(top, corroboration)));
    if findings == [] {
      confidence := 0.5;
    }
  }

  lemma SeveritiesCons(x: Signature, s: seq<Signature>)
    ensures Severities([x] + s) == [x.severity] + Severities(s)
  {
    assert ([x] + s)[1..] == s;
  }

  lemma SeverityBag(x: Signature, s: seq<Signature>)
    ensures multiset(Severities([x] + s)) == multiset{x.severity} + multiset(Severities(s))
  {
    SeveritiesCons(x, s);
  }

  lemma {:induction false} SeveritiesOfPlace(x: Signature, s: seq<Signature>)
    requires Ranked(s)
    ensures multiset(Severities(Place(x, s))) == multiset{x.severity} + multiset(Severities(s))
  {
    if s == [] || x.severity >= s[0].severity {
      SeverityBag(x, s);
    } else {
      SeveritiesOfPlace(x, s[1..]);
      assert s == [s[0]] + s[1..];
      PlacedUnderHead(x, s[0], s[1..]);
    }
  }

  lemma PlacedUnderHead(x: Signature, h: Signature, t: seq<Signature>)
    requires Ranked([h] + t) && Ranked(t) && x.severity < h.severity
    requires multiset(Severities(Place(x, t))) == multiset{x.severity} + multiset(Severities(t))
    ensures multiset(Severities(Place(x, [h] + t))) == multiset{x.severity} + multiset(Severities([h] + t))
  {
    PlaceCons(x, h, t);
    SameBagUnderHead(h, Place(x, t), t, x.severity);
  }

  lemma SameBagUnderHead(h: Signature, placed: seq<Signature>, t: seq<Signature>, v: Severity)
    requires multiset(Severities(placed)) == multiset{v} + multiset(Severities(t))
    ensures multiset(Severities([h] + placed)) == multiset{v} + multiset(Severities([h] + t))
  {
    SeverityBag(h, placed);
    SeverityBag(h, t);
  }

  /** Ranking the signatures ranks their severities. */
  lemma {:induction false} SeveritiesOfSort(s: seq<Signature>)
    ensures multiset(Severities(StableSort(s))) == multiset(Severities(s))
    ensures Descending(Severities(StableSort(s)))
  {
    if s != [] {
      SeveritiesOfSort(s[1..]);
      SeveritiesOfPlace(s[0], StableSort(s[1..]));
    }
  }

  /** What is left of 100 after the first `n` ranks. */
  function Remaining(all: seq<Severity>, n: nat): real
    requires n <= |all|
  {
    100.0 * Residue(all[..n], 1.0)
  }

  lemma OneMoreRank(all: seq<Severity>, rank: nat, remaining: real, weight: real)
    requires rank < |all| && remaining == Remaining(all, rank)
    requires weight == Weight(all[rank], Decay(rank))
    ensures remaining * (1.0 - weight) == Remaining(all, rank + 1)
  {
    assert all[..rank + 1] == all[..rank] + [all[rank]];
    ResidueAppend(all[..rank], all[rank], 1.0);
    RankFactorIs(all[rank], rank, 1.0, Decay(rank));
    CommonFactor(100.0, Residue(all[..rank + 1], 1.0), Residue(all[..rank], 1.0), RankFactor(all[rank], rank, 1.0));
  }

  lemma RankedResidue(s: seq<Signature>)
    ensures Residue(Severities(StableSort(s)), 1.0) == Left(Severities(s))
  {
    SeveritiesOfSort(s);
    LeftIsLeast(Severities(s), Severities(StableSort(s)));
    DescendingIsOptimal(Severities(StableSort(s)), Sorted(Severities(s)), 1.0);
  }

  lemma AllRanks(s: seq<Signature>)
    ensures var all := Severities(StableSort(s)); Remaining(all, |all|) == 100.0 * Left(Severities(s))
  {
    RankedResidue(s);
    var all := Severities(StableSort(s));
    assert all[..|all|] == all;
  }

  lemma RoundedLeft(left: real, remaining: real)
    requires remaining == 100.0 * left
    ensures RoundHalfEven(100.0 - remaining) == ValueOfLeft(left)
  {}

  lemma FinalValue(findings: seq<Signature>, remaining: real)
    requires remaining == Remaining(Severities(StableSort(findings)), |StableSort(findings)|)
    ensures RoundHalfEven(100.0 - remaining) == Value(Severities(findings))
  {
    AllRanks(findings);
    RoundedLeft(Left(Severities(findings)), remaining);
  }

  // ---- confidence

  lemma {:induction false} CorroboratingPermutes(s: seq<Severity>, p: seq<Severity>)
    requires multiset(s) == multiset(p)
    ensures Corroborating(s) == Corroborating(p)
  {
    if s == [] {
      assert |p| == |multiset(p)| == 0;
    } else {
      assert s == [s[0]] + s[1..];
      var j := IndexOf(p, s[0]);
      var rest := MoveOut(p, j);
      CorroboratingMoveOut(p, j);
      assert multiset([s[0]] + s[1..]) == multiset([s[0]] + rest);
      assert multiset(s[1..]) == multiset([s[0]] + s[1..]) - multiset{s[0]};
      assert multiset(rest) == multiset([s[0]] + rest) - multiset{s[0]};
      CorroboratingPermutes(s[1..], rest);
    }
  }

  lemma CorroboratingMoveOut(p: seq<Severity>, j: nat)
    requires j < |p|
    ensures Corroborating(p) == (if p[j] >= 40 then 1 else 0) + Corroborating(p[..j] + p[j + 1..])
  {
    CorroboratingConcat(p[..j], p[j..]);
    CorroboratingConcat(p[..j], p[j + 1..]);
    assert p == p[..j] + p[j..] && p[j..][1..] == p[j + 1..];
  }

  lemma {:induction false} CorroboratingConcat(a: seq<Severity>, b: seq<Severity>)
    ensures Corroborating(a + b) == Corroborating(a) + Corroborating(b)
  {
    if a == [] {
      assert a + b == b;
    } else {
      assert (a + b)[1..] == a[1..] + b;
      CorroboratingConcat(a[1..], b);
    }
  }

  lemma {:induction false} CorroboratingCovers(a: seq<Severity>, c: seq<Severity>)
    requires Covers(c, a)
    ensures Corroborating(a) <= Corroborating(c)
  {
    if a != [] {
      CorroboratingCovers(a[1..], c[1..]);
    }
  }

  /** Once there is a finding, more and stronger findings never lower the confidence. */
  lemma ConfidenceMonotone(a: seq<Severity>, b: seq<Severity>)
    requires a != [] && Outweighs(b, a)
    ensures Confidence(a) <= Confidence(b)
  {
    var c: seq<Severity> :| multiset(c) == multiset(b) && Covers(c, a);
    CorroboratingPermutes(c, b);
    CorroboratingCovers(a, c);
    SameTop(c, b);
    TopCovers(a, c);
    StrengthMonotone(Top(a), Corroborating(a), Top(b), Corroborating(b));
  }

  lemma TopCovers(a: seq<Severity>, c: seq<Severity>)
    requires a != [] && Covers(c, a)
    ensures Top(a) <= Top(c)
  {
    var i :| 0 <= i < |a| && a[i] == Top(a);
    assert a[i] <= c[i] <= Top(c);
  }

  lemma StrengthMonotone(t: Severity, m: nat, u: Severity, n: nat)
    requires t <= u && m <= n
    ensures Round2(Min(0.95, Strength(t, m))) <= Round2(Min(0.95, Strength(u, n)))
  {
    RoundMonotone(100.0 * Min(0.95, Strength(t, m)), 100.0 * Min(0.95, Strength(u, n)));
  }

  /** How many of the findings have severity 40 or more. */
  function Strong(s: seq<Severity>): nat {
    |Filter(s, (v: Severity) => v >= 40)|
  }

  lemma {:induction false} StrongOnes(s: seq<Severity>)
    ensures Corroborating(s) == Strong(s)
  {
    if s != [] {
      StrongOnes(s[1..]);
      FilterFirst(s[0], s[1..], (v: Severity) => v >= 40);
      assert s == [s[0]] + s[1..];
    }
  }

  /** The confidence, in hundredths before rounding: 35, and 0.45 for each point of the strongest finding,
      and 5 for each finding of 40 or more, up to four of them; never above 95. */
  lemma ConfidenceExactly(s: seq<Severity>, top: Severity)
    requires AtMost(s, top) && top in s
    ensures var strong := if Strong(s) < 4 then Strong(s) else 4;
            var points := 35.0 + 0.45 * top as real + 5.0 * strong as real;
            Confidence(s) == RoundHalfEven(if points <= 95.0 then points else 95.0) as real / 100.0
    ensures Confidence([]) == 0.5
  {
    StrongOnes(s);
    assert Top(s) == top;
    Hundredths(top, Corroborating(s));
  }

  lemma Hundredths(top: Severity, n: nat)
    ensures var points := 35.0 + 0.45 * top as real + 5.0 * (if n < 4 then n else 4) as real;
            100.0 * Min(0.95, Strength(top, n)) == if points <= 95.0 then points else 95.0
  {}

  /** Always within 0.35 and 0.95, and below the 0.5 of an empty list exactly when the strongest
      finding is 32 or weaker: a first weak finding lowers the confidence. */
  lemma ConfidenceRange(s: seq<Severity>)
    ensures 0.35 <= Confidence(s) <= 0.95
    ensures Confidence(s) < Confidence([]) <==> s != [] && Top(s) <= 32
  {
    if s != [] {
      var x := Min(0.95, Strength(Top(s), Corroborating(s)));
      RoundMonotone(35.0, 100.0 * x);
      RoundMonotone(100.0 * x, 95.0);
      if Top(s) <= 32 {
        NoneCorroborates(s);
        RoundMonotone(100.0 * x, 49.4);
      } else {
        RoundMonotone(49.85, 100.0 * x);
      }
    }
  }

  lemma {:induction false} NoneCorroborates(s: seq<Severity>)
    requires AtMost(s, 39)
    ensures Corroborating(s) == 0
  {
    if s != [] { NoneCorroborates(s[1..]); }
  }

  // ---- the verdict of the report

  datatype Status = Completed | Failed | Timeout

  datatype Summary = Partial(status: Status) | ByLevel(level: Level)

  datatype Verdict = Verdict(score: int, level: Level, confidence: real, summary: Summary, topReasons: seq<string>)

  function Names(s: seq<Signature>): (n: seq<string>)
    ensures |n| == |s| && forall i :: 0 <= i < |s| ==> n[i] == s[i].name
  {
    seq(|s|, i requires 0 <= i < |s| => s[i].name)
  }

  /** The verdict as a function of what fired, in rule order; only genuine findings enter it. */
  function VerdictOf(status: Status, fired: seq<Signature>): Verdict {
    var findings := Findings(fired);
    var severities := Severities(findings);
    var value := Value(severities);
    var level := LevelOf(value);
    var complete := status == Completed;
    Verdict(value, level,
            if complete then Confidence(severities) else Min(Confidence(severities), 0.4),
            if complete then ByLevel(level) else Partial(status),
            Take(Names(StableSort(findings)), MAX_REASONS))
  }

  /** The reasons name the strongest genuine findings, at most five of them, strongest first: one that
      is named is at least as strong as any that is not. */
  lemma ReasonsAreTheStrongest(status: Status, fired: seq<Signature>) returns (ranked: seq<Signature>)
    ensures multiset(ranked) == multiset(Filter(fired, (x: Signature) => x.id != "RULE_ERROR"))
    ensures forall i, j :: 0 <= i < j < |ranked| ==> ranked[i].severity >= ranked[j].severity
    ensures var reasons := VerdictOf(status, fired).topReasons;
            && |reasons| == (if |ranked| <= 5 then |ranked| else 5)
            && forall i :: 0 <= i < |reasons| ==> reasons[i] == ranked[i].name
  {
    FindingsAreFilter(fired);
    ranked := StableSort(Findings(fired));
    SortPermutes(Findings(fired));
  }

  /** Score, level, summary and confidence of the verdict. */
  lemma VerdictExactly(status: Status, fired: seq<Signature>)
    ensures var v, found := VerdictOf(status, fired), Severities(Filter(fired, (x: Signature) => x.id != "RULE_ERROR"));
            && v.score == Value(found)
            && (v.level == Malicious <==> v.score >= 70) && (v.level == Benign <==> v.score < 35)
            && (status == Completed ==> v.summary == ByLevel(v.level) && v.confidence == Confidence(found))
            && (status != Completed ==>
                  && v.summary == Partial(status)
                  && v.confidence == if Confidence(found) <= 0.4 then Confidence(found) else 0.4)
  {
    FindingsAreFilter(fired);
    LevelExactly(Value(Severities(Findings(fired))));
  }

  method Build<O>(status: Status, rules: seq<Rule<O>>, obs: O) returns (verdict: Verdict)
    ensures verdict == VerdictOf(status, FireAll(rules, obs))
    ensures status != Completed ==> verdict.confidence <= 0.4
  {
    var fired := Evaluate(rules, obs);
    var value, level, confidence := Score(fired);
    FindingsCommuteWithSort(FireAll(rules, obs));
    SortKeepsValue(Findings(FireAll(rules, obs)));
    var topReasons := Take(Names(Findings(fired)), MAX_REASONS);
    var summary := ByLevel(level);
    if status == Failed || status == Timeout {
      summary := Partial(status);
      confidence := Min(confidence, 0.4);
    }
    verdict := Verdict(value, level, confidence, summary, topReasons);
  }

  lemma SortKeepsValue(s: seq<Signature>)
    ensures Value(Severities(StableSort(s))) == Value(Severities(s))
    ensures Confidence(Severities(StableSort(s))) == Confidence(Severities(s))
  {
    var a, b := Severities(StableSort(s)), Severities(s);
    SeveritiesOfSort(s);
    ScoreIsOrderFree(a, b);
    CorroboratingPermutes(a, b);
    SameTop(a, b);
  }

  lemma SameTop(a: seq<Severity>, b: seq<Severity>)
    requires multiset(a) == multiset(b)
    ensures Top(a) == Top(b) && |a| == |b|
  {
    assert |a| == |multiset(a)| && |b| == |multiset(b)|;
    if a != [] {
      assert Top(a) in multiset(b) && Top(b) in multiset(a);
    }
  }

  lemma FindingsCons(x: Signature, s: seq<Signature>)
    ensures Findings([x] + s) == if x.id != RULE_ERROR then [x] + Findings(s) else Findings(s)
  {
    assert ([x] + s)[1..] == s;
  }

  lemma SortCons(x: Signature, s: seq<Signature>)
    ensures StableSort([x] + s) == Place(x, StableSort(s))
  {
    assert ([x] + s)[1..] == s;
  }

  lemma PlaceCons(x: Signature, h: Signature, t: seq<Signature>)
    requires Ranked([h] + t) && Ranked(t) && x.severity < h.severity
    ensures Place(x, [h] + t) == [h] + Place(x, t)
  {
    assert ([h] + t)[1..] == t;
  }

  /** Dropping the failures and ranking commute, so the reasons are the strongest findings. */
  lemma {:induction false} FindingsCommuteWithSort(s: seq<Signature>)
    ensures Findings(StableSort(s)) == StableSort(Findings(s))
  {
    if s != [] {
      var x, t := s[0], s[1..];
      assert s == [x] + t;
      FindingsCommuteWithSort(t);
      SortCons(x, t);
      FindingsRanked(StableSort(t));
      if x.id != RULE_ERROR {
        FindingsOfPlace(x, StableSort(t));
        FindingsCons(x, t);
        SortCons(x, Findings(t));
      } else {
        FailureOfPlace(x, StableSort(t));
        FindingsCons(x, t);
      }
    }
  }

  lemma {:induction false} FindingsOfPlace(x: Signature, s: seq<Signature>)
    requires Ranked(s) && Ranked(Findings(s)) && x.id != RULE_ERROR
    ensures Findings(Place(x, s)) == Place(x, Findings(s))
  {
    FindingsRanked(s);
    if s == [] || x.severity >= s[0].severity {
      FindingsCons(x, s);
    } else {
      var h, t := s[0], s[1..];
      assert s == [h] + t;
      FindingsRanked(t);
      FindingsOfPlace(x, t);
      FindingsCons(h, Place(x, t));
      FindingsCons(h, t);
      if h.id != RULE_ERROR {
        PlaceCons(x, h, Findings(t));
      }
    }
  }

  lemma {:induction false} FailureOfPlace(x: Signature, s: seq<Signature>)
    requires Ranked(s) && x.id == RULE_ERROR
    ensures Findings(Place(x, s)) == Findings(s)
  {
    if s == [] || x.severity >= s[0].severity {
      FindingsCons(x, s);
    } else {
      var h, t := s[0], s[1..];
      FailureOfPlace(x, t);
      FindingsCons(h, Place(x, t));
      FindingsCons(h, t);
      assert s == [h] + t;
    }
  }

  lemma {:induction false} FindingsRanked(s: seq<Signature>)
    requires Ranked(s)
    ensures Ranked(Findings(s))
    ensures forall i :: 0 <= i < |Findings(s)| ==> Findings(s)[i].severity <= s[0].severity
  {
    if s != [] { FindingsRanked(s[1..]); }
  }

  lemma {:induction false} FindingsConcat(a: seq<Signature>, b: seq<Signature>)
    ensures Findings(a + b) == Findings(a) + Findings(b)
  {
    if a == [] {
      assert a + b == b;
    } else {
      assert (a + b)[1..] == a[1..] + b;
      FindingsConcat(a[1..], b);
    }
  }

  lemma {:induction false} SameFindings<O>(rules: seq<Rule<O>>, obs: O, k: nat, other: Rule<O>)
    requires k < |rules| && !rules[k].detect(obs).Hit? && !other.detect(obs).Hit?
    ensures Findings(FireAll(rules[k := other], obs)) == Findings(FireAll(rules, obs))
  {
    var n, swapped := |rules| - 1, rules[k := other];
    FindingsConcat(FireAll(rules[..n], obs), Fire(rules[n], obs));
    FindingsConcat(FireAll(swapped[..n], obs), Fire(swapped[n], obs));
    if k == n {
      assert swapped[..n] == rules[..n];
      NoFinding(rules[n], obs);
      NoFinding(other, obs);
    } else {
      assert swapped[..n] == rules[..n][k := other];
      SameFindings(rules[..n], obs, k, other);
    }
  }

  lemma NoFinding<O>(rule: Rule<O>, obs: O)
    requires !rule.detect(obs).Hit?
    ensures Findings(Fire(rule, obs)) == []
  {}

  /** A rule that raises costs nothing: swapping a rule that finds nothing for one that raises,
      or back, changes no part of the verdict, whatever severities the two carry. */
  lemma FailingRuleIsNeutral<O>(status: Status, rules: seq<Rule<O>>, obs: O, k: nat, other: Rule<O>)
    requires k < |rules| && !rules[k].detect(obs).Hit? && !other.detect(obs).Hit?
    ensures VerdictOf(status, FireAll(rules[k := other], obs)) == VerdictOf(status, FireAll(rules, obs))
  {
    SameFindings(rules, obs, k, other);
  }

  // ---- where a rule's finding ends up

  /** The findings of a rule list, failures dropped. */
  function Found<O>(rules: seq<Rule<O>>, obs: O): seq<Signature> {
    Findings(FireAll(rules, obs))
  }

  lemma {:induction false} FireAllConcat<O>(a: seq<Rule<O>>, b: seq<Rule<O>>, obs: O)
    ensures FireAll(a + b, obs) == FireAll(a, obs) + FireAll(b, obs)
    decreases |b|
  {
    if b == [] {
      assert a + b == a;
    } else {
      var n := |b| - 1;
      FireAllConcat(a, b[..n], obs);
      LastOfConcat(a, b);
      FireAllStep(FireAll(a, obs), a + b[..n], b[..n], b[n], obs);
    }
  }

  lemma LastOfConcat<T>(a: seq<T>, b: seq<T>)
    requires b != []
    ensures var n := |b| - 1; b == b[..n] + [b[n]] && a + b == a + b[..n] + [b[n]]
  {}

  lemma FireAllStep<O>(first: seq<Signature>, whole: seq<Rule<O>>, part: seq<Rule<O>>, last: Rule<O>, obs: O)
    requires FireAll(whole, obs) == first + FireAll(part, obs)
    ensures FireAll(whole + [last], obs) == first + FireAll(part + [last], obs)
  {
    FireAllAppend(whole, last, obs);
    FireAllAppend(part, last, obs);
    ConcatAssociates(first, FireAll(part, obs), Fire(last, obs));
  }

  lemma FireAllAppend<O>(rules: seq<Rule<O>>, rule: Rule<O>, obs: O)
    ensures FireAll(rules + [rule], obs) == FireAll(rules, obs) + Fire(rule, obs)
  {
    assert (rules + [rule])[..|rules|] == rules;
  }

  lemma FoundConcat<O>(a: seq<Rule<O>>, b: seq<Rule<O>>, obs: O)
    ensures Found(a + b, obs) == Found(a, obs) + Found(b, obs)
  {
    FireAllConcat(a, b, obs);
    FindingsConcat(FireAll(a, obs), FireAll(b, obs));
  }

  lemma FoundOne<O>(rule: Rule<O>, obs: O)
    requires rule.detect(obs).Hit? && rule.id != RULE_ERROR
    ensures |Found([rule], obs)| == 1 && Found([rule], obs)[0].severity == rule.severity
  {
    var x := Fire(rule, obs)[0];
    assert [rule][..0] == [];
    assert FireAll([rule], obs) == Fire(rule, obs) == [x] + [];
    FindingsCons(x, []);
  }

  /** A rule that fires contributes the finding right behind those of the rules before it. */
  lemma FindingAt<O>(pre: seq<Rule<O>>, rule: Rule<O>, post: seq<Rule<O>>, obs: O)
    requires rule.detect(obs).Hit? && rule.id != RULE_ERROR
    ensures var f, p := Found(pre + ([rule] + post), obs), |Found(pre, obs)|;
            && |f| == p + 1 + |Found(post, obs)|
            && f[p].severity == rule.severity
            && f[p + 1..] == Found(post, obs)
  {
    FoundOne(rule, obs);
    FoundConcat([rule], post, obs);
    FoundConcat(pre, [rule] + post, obs);
    Middle(Found(pre, obs), Found([rule], obs), Found(post, obs));
  }

  lemma Middle<T>(a: seq<T>, b: seq<T>, c: seq<T>)
    requires |b| == 1
    ensures var s := a + (b + c); |s| == |a| + 1 + |c| && s[|a|] == b[0] && s[|a| + 1..] == c
  {}

  /** Two rules that fire contribute two different findings. */
  lemma TwoFindings<O>(pre: seq<Rule<O>>, r1: Rule<O>, mid: seq<Rule<O>>, r2: Rule<O>, post: seq<Rule<O>>, obs: O)
    returns (p: nat, q: nat)
    requires r1.detect(obs).Hit? && r1.id != RULE_ERROR
    requires r2.detect(obs).Hit? && r2.id != RULE_ERROR
    ensures var f := Found(pre + ([r1] + (mid + ([r2] + post))), obs);
            p < q < |f| && f[p].severity == r1.severity && f[q].severity == r2.severity
  {
    var rest := mid + ([r2] + post);
    FindingAt(pre, r1, rest, obs);
    FindingAt(mid, r2, post, obs);
    p := |Found(pre, obs)|;
    q := p + 1 + |Found(mid, obs)|;
    ghost var f := Found(pre + ([r1] + rest), obs);
    assert f[p + 1..][|Found(mid, obs)|] == f[q];
  }

  lemma SplitOne<T>(s: seq<T>, i: nat)
    requires i < |s|
    ensures s == s[..i] + ([s[i]] + s[i + 1..])
  {}

  lemma SplitTwo<T>(s: seq<T>, i: nat, j: nat)
    requires i < j < |s|
    ensures s == s[..i] + ([s[i]] + (s[i + 1..j] + ([s[j]] + s[j + 1..])))
  {
    SplitOne(s, i);
    assert s[i + 1..] == s[i + 1..j] + ([s[j]] + s[j + 1..]);
  }
}
