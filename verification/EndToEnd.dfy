/** From the archive walk to the verdict: the two rules that read the children, and what they
    guarantee about nested executables. */
module EndToEnd {
  import Archive
  import opened Common
  import opened Scoring
  import opened Signatures

  /** The observation set: the archive part, and whatever else other rules look at. */
  datatype Observations<!X> = Observations(archive: Archive.ArchiveReport, other: X)

  function Executables(children: seq<Archive.Child>, low: nat): (r: seq<Archive.Child>)
    ensures r == [] <==> !Archive.AnyExecutable(children, low)
  {
    if children == [] then [] else
      var rest := Executables(children[1..], low);
      assert Archive.AnyExecutable(children, low) <==>
             (children[0].Executable() && children[0].depth >= low) || Archive.AnyExecutable(children[1..], low) by {
        AnyExecutableCons(children, low);
      }
      if children[0].Executable() && children[0].depth >= low then [children[0]] + rest else rest
  }

  lemma AnyExecutableCons(s: seq<Archive.Child>, low: nat)
    requires s != []
    ensures Archive.AnyExecutable(s, low) <==>
            (s[0].Executable() && s[0].depth >= low) || Archive.AnyExecutable(s[1..], low)
  {
    if Archive.AnyExecutable(s[1..], low) {
      var i :| 0 <= i < |s[1..]| && s[1..][i].Executable() && s[1..][i].depth >= low;
      assert s[i + 1].Executable() && s[i + 1].depth >= low;
    }
    if Archive.AnyExecutable(s, low) {
      var i :| 0 <= i < |s| && s[i].Executable() && s[i].depth >= low;
      if i > 0 { assert s[1..][i - 1] == s[i]; }
    }
  }

  function Kind(c: Archive.Child): string {
    if c.Readable? then c.kind else ""
  }

  function DescribeListed(e: Archive.Listed): string {
    e.name + " (" + e.extension + ")"
  }

  function DescribeChild(c: Archive.Child): string {
    c.name + " -> " + Kind(c) +
    " (" + (if c.depth > 1 then "depth " + Archive.Decimal(c.depth) else "top level") + ")"
  }

  function DescribeNested(c: Archive.Child): string {
    c.name + " at depth " + Archive.Decimal(c.depth) + " (" + Kind(c) + ")"
  }

  function Map<A, B>(f: A -> B, s: seq<A>): (r: seq<B>)
    ensures |r| == |s|
  {
    if s == [] then [] else [f(s[0])] + Map(f, s[1..])
  }

  function ArchiveDangerous(report: Archive.ArchiveReport): Outcome {
    var evidence := Map(DescribeListed, Take(report.dangerousEntries, 10))
                  + Map(DescribeChild, Take(Executables(report.children, 0), 10));
    if evidence == [] then Silent else Hit(evidence)
  }

  function ArchiveNested(report: Archive.ArchiveReport): Outcome {
    var deep := Executables(report.children, 2);
    if deep == [] then Silent else Hit(Map(DescribeNested, Take(deep, 10)))
  }

  /** The two rules; their wording is of no consequence here. */
  function DangerousRule<X>(): Rule<Observations<X>> {
    Rule("ARCHIVE_DANGEROUS_CONTENT", "executable content", 60, "",
         (obs: Observations<X>) => ArchiveDangerous(obs.archive))
  }

  function NestedRule<X>(): Rule<Observations<X>> {
    Rule("ARCHIVE_NESTED_EXECUTABLE", "nested executable", 65, "",
         (obs: Observations<X>) => ArchiveNested(obs.archive))
  }

  // ---- what the rules report

  /** In the source's own terms: a child of a native family, or one marked dangerous, this deep. */
  function Wanted(low: nat): Archive.Child -> bool {
    (c: Archive.Child) =>
      c.Readable? && (c.family == Archive.Pe || c.family == Archive.Elf || c.dangerous) && c.depth >= low
  }

  lemma {:induction false} ExecutablesAreFilter(children: seq<Archive.Child>, low: nat)
    ensures Executables(children, low) == Filter(children, Wanted(low))
  {
    if children != [] {
      ExecutablesAreFilter(children[1..], low);
      FilterFirst(children[0], children[1..], Wanted(low));
      assert children == [children[0]] + children[1..];
    }
  }

  lemma {:induction false} MapPlaces<A, B>(f: A -> B, s: seq<A>)
    ensures forall i :: 0 <= i < |s| ==> Map(f, s)[i] == f(s[i])
  {
    if s != [] { MapPlaces(f, s[1..]); }
  }

  /** The rule on nested executables names the first ten of them, with their depth and kind. */
  lemma NestedEvidence(report: Archive.ArchiveReport, i: nat)
    requires ArchiveNested(report).Hit?
    ensures var found, deep := ArchiveNested(report).evidence, Filter(report.children, Wanted(2));
            && |found| == (if |deep| <= 10 then |deep| else 10)
            && (i < |found| ==>
                  deep[i].Readable? &&
                  found[i] == deep[i].name + " at depth " + Archive.Decimal(deep[i].depth) + " (" + deep[i].kind + ")")
  {
    ExecutablesAreFilter(report.children, 2);
    var deep := Executables(report.children, 2);
    MapPlaces(DescribeNested, Take(deep, 10));
    if i < |deep| && i < 10 {
      var pos := FilterPicks(report.children, Wanted(2));
      assert Wanted(2)(deep[i]);
    }
  }

  /** The other rule names the first ten dangerous listed entries and then the first ten executables. */
  lemma DangerousEvidence(report: Archive.ArchiveReport, i: nat)
    requires ArchiveDangerous(report).Hit?
    ensures var found, listed := ArchiveDangerous(report).evidence, Take(report.dangerousEntries, 10);
            var inside := Take(Filter(report.children, Wanted(0)), 10);
            && |found| == |listed| + |inside|
            && (i < |listed| ==> found[i] == listed[i].name + " (" + listed[i].extension + ")")
            && (i < |inside| ==>
                  inside[i].Readable? &&
                  found[|listed| + i] == inside[i].name + " -> " + inside[i].kind
                    + (if inside[i].depth > 1 then " (depth " + Archive.Decimal(inside[i].depth) + ")"
                       else " (top level)"))
  {
    ExecutablesAreFilter(report.children, 0);
    var listed, inside := Take(report.dangerousEntries, 10), Take(Executables(report.children, 0), 10);
    MapPlaces(DescribeListed, listed);
    MapPlaces(DescribeChild, inside);
    if i < |inside| {
      var pos := FilterPicks(report.children, Wanted(0));
      assert Wanted(0)(inside[i]);
      ChildText(inside[i]);
    }
  }

  lemma ChildText(c: Archive.Child)
    requires c.Readable?
    ensures DescribeChild(c) == c.name + " -> " + c.kind
              + (if c.depth > 1 then " (depth " + Archive.Decimal(c.depth) + ")" else " (top level)")
  {
    var head, n := c.name + " -> " + c.kind, Archive.Decimal(c.depth);
    if c.depth > 1 {
      assert head + " (" + ("depth " + n) + ")" == head + (" (depth " + n + ")");
    } else {
      assert head + " (" + "top level" + ")" == head + " (top level)";
    }
  }

  /** Some file at nesting depth `low` or more is executable and among the first 180 of the
      whole pre-order listing. */
  ghost predicate Reachable(all: seq<Archive.Child>, low: nat) {
    exists i :: 0 <= i < |all| && i < 180 && Wanted(low)(all[i])
  }

  lemma ReachableAbove(all: seq<Archive.Child>)
    requires Reachable(all, 2)
    ensures Reachable(all, 0)
  {
    var i :| 0 <= i < |all| && i < 180 && Wanted(2)(all[i]);
    assert Wanted(0)(all[i]);
  }

  lemma ReachableIsReported(all: seq<Archive.Child>, low: nat)
    ensures Reachable(all, low) <==> Archive.AnyExecutable(Take(all, Archive.CAP), low)
  {
    var t := Take(all, Archive.CAP);
    if Reachable(all, low) {
      var i :| 0 <= i < |all| && i < 180 && Wanted(low)(all[i]);
      assert t[i] == all[i] && t[i].Executable();
    }
    if Archive.AnyExecutable(t, low) {
      var i :| 0 <= i < |t| && t[i].Executable() && t[i].depth >= low;
      assert all[i] == t[i] && Wanted(low)(all[i]);
    }
  }

  /** Exactly when each archive rule fires, in terms of the archive itself. */
  lemma ArchiveRulesExact(w: Archive.World, content: Archive.Content, name: string, family: Archive.Family,
                          contents: Archive.Contents)
    ensures var report := Archive.ReportOf(w, content, name, family, contents);
            var all := Archive.AllChildren(w, content, name, family, contents);
            && (ArchiveNested(report).Hit? <==> Reachable(all, 2))
            && (ArchiveDangerous(report).Hit? <==> report.dangerousEntries != [] || Reachable(all, 0))
            && (report.containsExecutable <==> Reachable(all, 0))
            && !ArchiveNested(report).Raised? && !ArchiveDangerous(report).Raised?
  {
    var all := Archive.AllChildren(w, content, name, family, contents);
    ReachableIsReported(all, 2);
    ReachableIsReported(all, 0);
  }

  /** End to end: an executable inside a nested archive, among the first 180 files, is reported as
      malicious with at least 78 points, whatever the other rules say; one at the top level
      brings at least 60. */
  lemma NestedExecutableIsMalicious<X>(
    w: Archive.World, content: Archive.Content, name: string, family: Archive.Family, contents: Archive.Contents,
    other: X,
    status: Status, rules: seq<Rule<Observations<X>>>, a: nat, b: nat)
    requires a < |rules| && rules[a] == DangerousRule()
    requires b < |rules| && rules[b] == NestedRule()
    ensures var all := Archive.AllChildren(w, content, name, family, contents);
            var obs := Observations(Archive.ReportOf(w, content, name, family, contents), other);
            var verdict := VerdictOf(status, FireAll(rules, obs));
            && (Reachable(all, 2) ==> verdict.score >= 78 && verdict.level == Malicious)
            && (Reachable(all, 0) ==> verdict.score >= 60 && verdict.level != Benign)
  {
    var all := Archive.AllChildren(w, content, name, family, contents);
    var obs := Observations(Archive.ReportOf(w, content, name, family, contents), other);
    ArchiveRulesExact(w, content, name, family, contents);
    if Reachable(all, 2) {
      ReachableAbove(all);
      BothRulesFire(status, rules, obs, a, b);
    } else if Reachable(all, 0) {
      OneRuleFires(status, rules, obs, a);
    }
  }

  /** Triage calls the file native or finds its extension dangerous. */
  predicate Runs(w: Archive.World, file: Archive.File) {
    match w.triage(file.content, file.name)
    case TriageFailed(_) => false
    case Triaged(family, dangerousExtension, _) => dangerousExtension || family == Archive.Pe || family == Archive.Elf
  }

  /** Such a file lies somewhere in the unpacked archive, this deep or deeper. */
  ghost predicate HoldsExecutable(w: Archive.World, dir: Archive.Dir, low: nat) {
    exists m :: Archive.LiesIn(w, dir, 1, "", m) && Runs(w, m.file) && m.depth >= low
  }

  lemma {:induction false} HeldIsReachable(w: Archive.World, dir: Archive.Dir, all: seq<Archive.Child>, low: nat)
    requires all == Archive.Listing(w, Archive.Entries(dir, ""), 1, "") && |all| <= 180
    ensures Reachable(all, low) <==> HoldsExecutable(w, dir, low)
  {
    if m :| Archive.LiesIn(w, dir, 1, "", m) && Runs(w, m.file) && m.depth >= low {
      var c := Description(w, m);
      assert Archive.Shown(w, dir, 1, "", c);
      Archive.ListingIsTheArchive(w, dir, c);
      var i :| 0 <= i < |all| && all[i] == c;
      assert Wanted(low)(all[i]);
    }
    if i :| 0 <= i < |all| && i < 180 && Wanted(low)(all[i]) {
      Archive.ListingIsTheArchive(w, dir, all[i]);
      var m :| Archive.LiesIn(w, dir, 1, "", m) && Archive.Describes(w, all[i], m);
      assert Runs(w, m.file) && m.depth >= low;
    }
  }

  lemma Description(w: Archive.World, m: Archive.Met) returns (c: Archive.Child)
    requires Runs(w, m.file)
    ensures Archive.Describes(w, c, m) && c.Executable() && c.depth == m.depth
  {
    var tri := w.triage(m.file.content, m.file.name);
    c := Archive.Readable(m.name, m.depth, tri.family, tri.kind,
                          tri.dangerousExtension || tri.family == Archive.Pe || tri.family == Archive.Elf);
  }

  /** The same said of the archive itself: if it is not encrypted, can be unpacked and lists at most 180
      files, then an executable that lies in an archive inside it makes it malicious with at least 78
      points, and one that lies anywhere in it brings at least 60. */
  lemma ExecutableInsideIsSeen<X>(
    w: Archive.World, content: Archive.Content, name: string, family: Archive.Family, contents: Archive.Contents,
    other: X, status: Status, rules: seq<Rule<Observations<X>>>, a: nat, b: nat)
    requires a < |rules| && rules[a] == DangerousRule()
    requires b < |rules| && rules[b] == NestedRule()
    requires !contents.encrypted && w.extract(content, name, family).Unpacked?
    requires |Archive.AllChildren(w, content, name, family, contents)| <= 180
    ensures var dir := w.extract(content, name, family).dir;
            var obs := Observations(Archive.ReportOf(w, content, name, family, contents), other);
            var verdict := VerdictOf(status, FireAll(rules, obs));
            && (HoldsExecutable(w, dir, 2) ==> verdict.score >= 78 && verdict.level == Malicious)
            && (HoldsExecutable(w, dir, 1) ==> verdict.score >= 60 && verdict.level != Benign)
  {
    var dir, all := w.extract(content, name, family).dir, Archive.AllChildren(w, content, name, family, contents);
    HeldIsReachable(w, dir, all, 2);
    HeldIsReachable(w, dir, all, 1);
    if Reachable(all, 1) {
      var i :| 0 <= i < |all| && i < 180 && Wanted(1)(all[i]);
      assert Wanted(0)(all[i]);
    }
    NestedExecutableIsMalicious(w, content, name, family, contents, other, status, rules, a, b);
  }

  ghost predicate Fires<O>(rule: Rule<O>, severity: int, obs: O) {
    rule.severity == severity && rule.id != RULE_ERROR && rule.detect(obs).Hit?
  }

  lemma OneRuleFires<O>(status: Status, rules: seq<Rule<O>>, obs: O, a: nat)
    requires a < |rules| && Fires(rules[a], 60, obs)
    ensures VerdictOf(status, FireAll(rules, obs)).score >= 60
    ensures VerdictOf(status, FireAll(rules, obs)).level != Benign
  {
    SplitOne(rules, a);
    FindingAt(rules[..a], rules[a], rules[a + 1..], obs);
    assert Severities(Found(rules, obs))[|Found(rules[..a], obs)|] == 60;
    ContainedFindings(Severities(Found(rules, obs)), 60);
  }

  lemma BothRulesFire<O>(status: Status, rules: seq<Rule<O>>, obs: O, a: nat, b: nat)
    requires a < |rules| && Fires(rules[a], 60, obs)
    requires b < |rules| && Fires(rules[b], 65, obs)
    ensures VerdictOf(status, FireAll(rules, obs)).score >= 78
    ensures VerdictOf(status, FireAll(rules, obs)).level == Malicious
  {
    var i, j := if a < b then a else b, if a < b then b else a;
    SplitTwo(rules, i, j);
    var p, q := TwoFindings(rules[..i], rules[i], rules[i + 1..j], rules[j], rules[j + 1..], obs);
    PairOf65And60(Severities(Found(rules, obs)), if a < b then q else p, if a < b then p else q);
  }
}
