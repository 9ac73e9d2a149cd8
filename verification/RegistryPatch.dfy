/** Registering a DLL in Wine's `system.reg`, which is edited as a list of lines. */
module RegistryPatch {
  import opened Common

  /** The texts the script works with: what it looks for, and the lines it writes. */
  datatype Texts = Texts(strip: string -> string, target: string, software: string, app: string, load: string,
                         headerLine: string, timeLine: string, appLine: string, loadLine: string)

  // ---- the tests on a line, all on its stripped text

  predicate IsTarget(line: string, t: Texts) {
    t.target <= t.strip(line)
  }

  predicate IsSoftware(line: string, t: Texts) {
    t.software <= t.strip(line)
  }

  predicate IsHeader(line: string, t: Texts) {
    "[" <= t.strip(line)
  }

  /** Where the values of an existing section stop. */
  predicate IsStop(line: string, t: Texts) {
    IsHeader(line, t) || t.strip(line) == ""
  }

  predicate HasName(line: string, name: string, t: Texts) {
    name <= t.strip(line)
  }

  // ---- positions

  function FirstTarget(lines: seq<string>, t: Texts): Option<nat> {
    if lines == [] then None
    else if IsTarget(lines[0], t) then Some(0)
    else
      match FirstTarget(lines[1..], t)
      case None => None
      case Some(i) => Some(i + 1)
  }

  function LastSoftware(lines: seq<string>, t: Texts): Option<nat> {
    if lines == [] then None
    else if IsSoftware(lines[|lines| - 1], t) then Some(|lines| - 1)
    else LastSoftware(lines[..|lines| - 1], t)
  }

  /** The first stop, or the first header, at `from` or behind it. */
  function SectionEnd(lines: seq<string>, from: nat, t: Texts): (end: nat)
    requires from <= |lines|
    ensures from <= end <= |lines|
    ensures forall i :: from <= i < end ==> !IsStop(lines[i], t)
    ensures end < |lines| ==> IsStop(lines[end], t)
    decreases |lines| - from
  {
    if from == |lines| || IsStop(lines[from], t) then from else SectionEnd(lines, from + 1, t)
  }

  function NextHeader(lines: seq<string>, from: nat, t: Texts): (end: nat)
    requires from <= |lines|
    ensures from <= end <= |lines|
    ensures forall i :: from <= i < end ==> !IsHeader(lines[i], t)
    ensures end < |lines| ==> IsHeader(lines[end], t)
    decreases |lines| - from
  {
    if from == |lines| || IsHeader(lines[from], t) then from else NextHeader(lines, from + 1, t)
  }

  lemma {:induction false} FirstTargetIsFirst(lines: seq<string>, t: Texts)
    ensures match FirstTarget(lines, t)
            case None => forall i :: 0 <= i < |lines| ==> !IsTarget(lines[i], t)
            case Some(s) => s < |lines| && IsTarget(lines[s], t) && forall i :: 0 <= i < s ==> !IsTarget(lines[i], t)
  {
    if lines != [] && !IsTarget(lines[0], t) {
      FirstTargetIsFirst(lines[1..], t);
      assert forall i :: 1 <= i < |lines| ==> lines[i] == lines[1..][i - 1];
    }
  }

  lemma {:induction false} FirstTargetIs(lines: seq<string>, s: nat, t: Texts)
    requires s < |lines| && IsTarget(lines[s], t) && forall i :: 0 <= i < s ==> !IsTarget(lines[i], t)
    ensures FirstTarget(lines, t) == Some(s)
  {
    FirstTargetIsFirst(lines, t);
    assert FirstTarget(lines, t).Some? && FirstTarget(lines, t).value == s;
  }

  lemma {:induction false} LastSoftwareIsLast(lines: seq<string>, t: Texts)
    ensures match LastSoftware(lines, t)
            case None => forall i :: 0 <= i < |lines| ==> !IsSoftware(lines[i], t)
            case Some(s) =>
              s < |lines| && IsSoftware(lines[s], t) && forall i :: s < i < |lines| ==> !IsSoftware(lines[i], t)
  {
    if lines != [] && !IsSoftware(lines[|lines| - 1], t) {
      LastSoftwareIsLast(lines[..|lines| - 1], t);
    }
  }

  lemma SectionEndIs(lines: seq<string>, from: nat, end: nat, t: Texts)
    requires from <= end <= |lines|
    requires forall i :: from <= i < end ==> !IsStop(lines[i], t)
    requires end < |lines| ==> IsStop(lines[end], t)
    ensures SectionEnd(lines, from, t) == end
  {
    var e := SectionEnd(lines, from, t);
  }

  // ---- the patch

  predicate HasValue(lines: seq<string>, from: nat, to: nat, name: string, t: Texts)
    requires from <= to <= |lines|
  {
    exists i :: from <= i < to && HasName(lines[i], name, t)
  }

  /** The values missing from a section, in the order they end up in. */
  function Missing(lines: seq<string>, from: nat, to: nat, t: Texts): seq<string>
    requires from <= to <= |lines|
  {
    (if HasValue(lines, from, to, t.app, t) then [] else [t.appLine]) +
    (if HasValue(lines, from, to, t.load, t) then [] else [t.loadLine])
  }

  function NewSection(t: Texts): seq<string> {
    ["\n", t.headerLine, t.timeLine, t.appLine, t.loadLine, "\n"]
  }

  datatype Edit = Edit(at: nat, block: seq<string>)

  /** The one contiguous block the patch adds, and where. */
  function EditOf(lines: seq<string>, t: Texts): (edit: Edit)
    ensures edit.at <= |lines|
  {
    FirstTargetIsFirst(lines, t);
    LastSoftwareIsLast(lines, t);
    match FirstTarget(lines, t)
    case Some(s) =>
      var end := SectionEnd(lines, s + 1, t);
      Edit(end, Missing(lines, s + 1, end, t))
    case None =>
      match LastSoftware(lines, t)
      case Some(k) => Edit(NextHeader(lines, k + 1, t), NewSection(t))
      case None => Edit(|lines|, NewSection(t))
  }

  function Insert(lines: seq<string>, edit: Edit): seq<string>
    requires edit.at <= |lines|
  {
    lines[..edit.at] + edit.block + lines[edit.at..]
  }

  function Patched(lines: seq<string>, t: Texts): seq<string> {
    Insert(lines, EditOf(lines, t))
  }

  method FindSection(lines: seq<string>, t: Texts) returns (section: Option<nat>)
    ensures section == FirstTarget(lines, t)
  {
    for i := 0 to |lines|
      invariant forall k :: 0 <= k < i ==> !IsTarget(lines[k], t)
    {
      if IsTarget(lines[i], t) {
        FirstTargetIs(lines, i, t);
        return Some(i);
      }
    }
    FirstTargetIsFirst(lines, t);
    return None;
  }

  /** Adds the missing values of the section whose header is line `s`, last one first, each at the
      same place. */
  method AddValues(input: seq<string>, s: nat, t: Texts) returns (lines: seq<string>)
    requires FirstTarget(input, t) == Some(s)
    ensures lines == Patched(input, t)
  {
    FirstTargetIsFirst(input, t);
    lines := input;
    var insertAt := s + 1;
    while insertAt < |lines| && !IsStop(lines[insertAt], t)
      invariant s + 1 <= insertAt <= |lines|
      invariant SectionEnd(lines, insertAt, t) == SectionEnd(lines, s + 1, t)
    {
      insertAt := insertAt + 1;
    }
    if !HasValue(lines, s + 1, insertAt, t.load, t) {
      lines := lines[..insertAt] + [t.loadLine] + lines[insertAt..];
    }
    SameValues(input, lines, s + 1, insertAt, t.app, t);
    ghost var loadPart := lines;
    if !HasValue(lines, s + 1, insertAt, t.app, t) {
      lines := lines[..insertAt] + [t.appLine] + lines[insertAt..];
    }
    TwoInserts(input, loadPart, lines, insertAt, Missing(input, s + 1, insertAt, t), t.appLine, t.loadLine);
  }

  lemma TwoInserts(input: seq<string>, mid: seq<string>, out: seq<string>, at: nat, block: seq<string>,
                   a: string, b: string)
    requires at <= |input|
    requires mid == input || mid == input[..at] + [b] + input[at..]
    requires at <= |mid| && (out == mid || out == mid[..at] + [a] + mid[at..])
    requires block == (if out == mid then [] else [a]) + (if mid == input then [] else [b])
    ensures out == Insert(input, Edit(at, block))
  {
    if mid != input {
      assert mid[..at] == input[..at] && mid[at..] == [b] + input[at..];
    }
  }

  lemma SameValues(a: seq<string>, b: seq<string>, from: nat, to: nat, name: string, t: Texts)
    requires from <= to <= |a| && to <= |b| && a[..to] == b[..to]
    ensures HasValue(a, from, to, name, t) <==> HasValue(b, from, to, name, t)
  {
    assert forall i :: 0 <= i < to ==> a[i] == a[..to][i] == b[i];
  }

  method FindLastSoftware(lines: seq<string>, t: Texts) returns (last: Option<nat>)
    ensures last == LastSoftware(lines, t)
  {
    last := None;
    for k := 0 to |lines|
      invariant last == LastSoftware(lines[..k], t)
    {
      assert lines[..k + 1][..k] == lines[..k];
      if IsSoftware(lines[k], t) {
        last := Some(k);
      }
    }
    assert lines[..|lines|] == lines;
  }

  /** Adds the whole section behind the last `Software` one, or at the end. */
  method AddSection(input: seq<string>, t: Texts) returns (lines: seq<string>)
    requires FirstTarget(input, t).None?
    ensures lines == Patched(input, t)
  {
    lines := input;
    LastSoftwareIsLast(input, t);
    var last := FindLastSoftware(lines, t);
    if last.Some? {
      var insertAt := last.value + 1;
      while insertAt < |lines| && !IsHeader(lines[insertAt], t)
        invariant last.value + 1 <= insertAt <= |lines|
        invariant NextHeader(lines, insertAt, t) == NextHeader(lines, last.value + 1, t)
      {
        insertAt := insertAt + 1;
      }
      lines := InsertAll(lines, insertAt, NewSection(t));
    } else {
      lines := lines + ["\n"];
      lines := lines + [t.headerLine];
      lines := lines + [t.timeLine];
      lines := lines + [t.appLine];
      lines := lines + [t.loadLine];
      lines := lines + ["\n"];
      assert lines == Insert(input, Edit(|input|, NewSection(t)));
    }
  }

  method InsertAll(input: seq<string>, at: nat, block: seq<string>) returns (lines: seq<string>)
    requires at <= |input|
    ensures lines == Insert(input, Edit(at, block))
  {
    lines := input;
    for j := 0 to |block|
      invariant lines == input[..at] + block[..j] + input[at..]
    {
      assert lines[..at + j] == input[..at] + block[..j] && lines[at + j..] == input[at..];
      assert block[..j + 1] == block[..j] + [block[j]];
      lines := lines[..at + j] + [block[j]] + lines[at + j..];
    }
    assert block[..|block|] == block;
  }

  method PatchLines(input: seq<string>, t: Texts) returns (lines: seq<string>)
    ensures lines == Patched(input, t)
  {
    var section := FindSection(input, t);
    if section.Some? {
      lines := AddValues(input, section.value, t);
    } else {
      lines := AddSection(input, t);
    }
  }

  // ---- the lines the patch adds

  /** What the texts and the stripping must satisfy for the script to recognise its own work. */
  ghost predicate Valid(t: Texts) {
    ValidLines(t) && ValidStrip(t)
  }

  predicate ValidLines(t: Texts) {
    && t.target != "" && "[" <= t.software <= t.target
    && IsTarget(t.headerLine, t) && Terminated(t.headerLine)
    && !IsStop(t.timeLine, t) && Terminated(t.timeLine)
    && !IsStop(t.appLine, t) && HasName(t.appLine, t.app, t) && Terminated(t.appLine)
    && !IsStop(t.loadLine, t) && HasName(t.loadLine, t.load, t) && Terminated(t.loadLine)
    && !HasName(t.loadLine, t.app, t)
  }

  ghost predicate ValidStrip(t: Texts) {
    && t.strip("\n") == ""
    && (forall x: string :: t.strip(x + "\n") == t.strip(x))
    && (forall x: string :: t.strip(x) != "" ==> t.strip(x) <= t.strip(x + t.appLine))
    && (forall x: string :: t.strip(x) != "" ==> t.strip(x) <= t.strip(x + t.loadLine))
  }

  // ---- both values are there afterwards, and a second run finds them

  /** The first target section, as the patch delimits it, has both values. */
  predicate Complete(lines: seq<string>, t: Texts) {
    FirstTargetIsFirst(lines, t);
    match FirstTarget(lines, t)
    case None => false
    case Some(s) =>
      var end := SectionEnd(lines, s + 1, t);
      HasValue(lines, s + 1, end, t.app, t) && HasValue(lines, s + 1, end, t.load, t)
  }

  lemma CompleteIsUnchanged(lines: seq<string>, t: Texts)
    requires Complete(lines, t)
    ensures Patched(lines, t) == lines
  {
    var edit := EditOf(lines, t);
    assert edit.block == [];
    assert lines[..edit.at] + [] + lines[edit.at..] == lines;
  }

  /** Inserting before line `at` moves what is behind, and nothing else. */
  ghost predicate Inserted(lines: seq<string>, edit: Edit, r: seq<string>) {
    && edit.at <= |lines| && |r| == |lines| + |edit.block|
    && (forall i :: 0 <= i < edit.at ==> r[i] == lines[i])
    && (forall i :: 0 <= i < |edit.block| ==> r[edit.at + i] == edit.block[i])
    && (forall i :: edit.at <= i < |lines| ==> r[i + |edit.block|] == lines[i])
  }

  lemma InsertInserts(lines: seq<string>, edit: Edit)
    requires edit.at <= |lines|
    ensures Inserted(lines, edit, Insert(lines, edit))
  {}

  lemma ValuesCompleteSection(lines: seq<string>, s: nat, t: Texts)
    requires Valid(t)
    requires FirstTarget(lines, t) == Some(s)
    ensures Complete(Patched(lines, t), t)
  {
    FirstTargetIsFirst(lines, t);
    var edit := EditOf(lines, t);
    MissingHasNoStop(lines, s + 1, edit.at, t);
    SectionGrows(lines, s, edit, t);
    ValueKept(lines, edit, s + 1, t.app, t.appLine, t);
    ValueKept(lines, edit, s + 1, t.load, t.loadLine, t);
    BothThere(Insert(lines, edit), s, edit.at + |edit.block|, t);
  }

  lemma BothThere(r: seq<string>, s: nat, end: nat, t: Texts)
    requires s < |r| && FirstTarget(r, t) == Some(s) && SectionEnd(r, s + 1, t) == end
    requires HasValue(r, s + 1, end, t.app, t) && HasValue(r, s + 1, end, t.load, t)
    ensures Complete(r, t)
  {}

  lemma MissingHasNoStop(lines: seq<string>, from: nat, to: nat, t: Texts)
    requires from <= to <= |lines|
    requires Valid(t)
    ensures var block := Missing(lines, from, to, t); forall i :: 0 <= i < |block| ==> !IsStop(block[i], t)
    ensures HasValue(lines, from, to, t.app, t) || t.appLine in Missing(lines, from, to, t)
    ensures HasValue(lines, from, to, t.load, t) || t.loadLine in Missing(lines, from, to, t)
  {
  }

  /** Lines inserted at the end of a section, none of them a stop, become part of it. */
  lemma SectionGrows(lines: seq<string>, s: nat, edit: Edit, t: Texts)
    requires FirstTarget(lines, t) == Some(s) && s < |lines| && edit.at == SectionEnd(lines, s + 1, t)
    requires forall i :: 0 <= i < |edit.block| ==> !IsStop(edit.block[i], t)
    ensures var r := Insert(lines, edit);
            s < |r| && FirstTarget(r, t) == Some(s) && SectionEnd(r, s + 1, t) == edit.at + |edit.block|
  {
    InsertInserts(lines, edit);
    SectionGrowsBy(lines, s, edit, Insert(lines, edit), t);
  }

  lemma SectionGrowsBy(lines: seq<string>, s: nat, edit: Edit, r: seq<string>, t: Texts)
    requires FirstTarget(lines, t) == Some(s) && s < edit.at && Inserted(lines, edit, r)
    requires SectionEnd(lines, s + 1, t) == edit.at
    requires forall i :: 0 <= i < |edit.block| ==> !IsStop(edit.block[i], t)
    ensures FirstTarget(r, t) == Some(s) && SectionEnd(r, s + 1, t) == edit.at + |edit.block|
  {
    FirstStays(lines, s, edit.at, r, t);
    EndMoves(lines, s + 1, edit.at, edit.block, r, t);
  }

  lemma FirstStays(lines: seq<string>, s: nat, n: nat, r: seq<string>, t: Texts)
    requires FirstTarget(lines, t) == Some(s) && s < n <= |lines| && n <= |r|
    requires forall i :: 0 <= i < n ==> r[i] == lines[i]
    ensures FirstTarget(r, t) == Some(s)
  {
    FirstTargetIsFirst(lines, t);
    FirstTargetIs(r, s, t);
  }

  lemma EndMoves(lines: seq<string>, from: nat, end: nat, block: seq<string>, r: seq<string>, t: Texts)
    requires from <= end <= |lines| && |r| == |lines| + |block| && SectionEnd(lines, from, t) == end
    requires forall i :: 0 <= i < end ==> r[i] == lines[i]
    requires forall i :: 0 <= i < |block| ==> r[end + i] == block[i] && !IsStop(block[i], t)
    requires forall i :: end <= i < |lines| ==> r[i + |block|] == lines[i]
    ensures SectionEnd(r, from, t) == end + |block|
  {
    forall i | from <= i < end + |block| ensures !IsStop(r[i], t) {
      if i >= end { assert r[end + (i - end)] == block[i - end]; }
    }
    if end < |lines| { assert r[end + |block|] == lines[end]; }
    SectionEndIs(r, from, end + |block|, t);
  }

  lemma ValueKept(lines: seq<string>, edit: Edit, from: nat, name: string, line: string, t: Texts)
    requires from <= edit.at <= |lines| && HasName(line, name, t)
    requires HasValue(lines, from, edit.at, name, t) || line in edit.block
    ensures edit.at + |edit.block| <= |Insert(lines, edit)|
    ensures HasValue(Insert(lines, edit), from, edit.at + |edit.block|, name, t)
  {
    var r := Insert(lines, edit);
    InsertInserts(lines, edit);
    if HasValue(lines, from, edit.at, name, t) {
      var i :| from <= i < edit.at && HasName(lines[i], name, t);
      assert HasName(r[i], name, t);
    } else {
      var j :| 0 <= j < |edit.block| && edit.block[j] == line;
      assert HasName(r[edit.at + j], name, t);
    }
  }

  /** The shape of a new section, whatever its texts; its header is line `h`. */
  ghost predicate IsSection(block: seq<string>, h: nat, t: Texts) {
    && |block| == h + 5
    && (forall i :: 0 <= i < h ==> !IsTarget(block[i], t))
    && IsTarget(block[h], t)
    && (forall i :: h + 1 <= i < h + 4 ==> !IsStop(block[i], t))
    && HasName(block[h + 2], t.app, t) && HasName(block[h + 3], t.load, t)
    && IsStop(block[h + 4], t)
  }

  lemma NewSectionIs(t: Texts)
    requires Valid(t)
    ensures IsSection(NewSection(t), 1, t) && IsSection(NewSection(t)[1..], 0, t)
  {
  }

  /** `r` has `block` at line `at`. */
  ghost predicate BlockAt(r: seq<string>, at: nat, block: seq<string>) {
    at + |block| <= |r| && forall i :: 0 <= i < |block| ==> r[at + i] == block[i]
  }

  /** A new section at `at`, in lines without one, is the first and has both values. */
  lemma NewSectionIsComplete(lines: seq<string>, at: nat, block: seq<string>, h: nat, t: Texts)
    requires FirstTarget(lines, t).None? && at <= |lines| && IsSection(block, h, t)
    ensures Complete(Insert(lines, Edit(at, block)), t)
  {
    var r := BlockInserted(lines, at, block);
    NewSectionThere(lines, at, block, h, r, t);
  }

  lemma BlockInserted(lines: seq<string>, at: nat, block: seq<string>) returns (r: seq<string>)
    requires at <= |lines|
    ensures r == Insert(lines, Edit(at, block)) && BlockAt(r, at, block)
    ensures forall i :: 0 <= i < at ==> r[i] == lines[i]
  {
    r := Insert(lines, Edit(at, block));
  }

  lemma NewSectionThere(lines: seq<string>, at: nat, block: seq<string>, h: nat, r: seq<string>, t: Texts)
    requires FirstTarget(lines, t).None? && at <= |lines| && IsSection(block, h, t) && BlockAt(r, at, block)
    requires forall i :: 0 <= i < at ==> r[i] == lines[i]
    ensures Complete(r, t)
  {
    NewSectionIsFirst(lines, at, block, h, r, t);
    NewSectionEnds(at, block, h, r, t);
    BothThere(r, at + h, at + h + 4, t);
  }

  lemma NewSectionIsFirst(lines: seq<string>, at: nat, block: seq<string>, h: nat, r: seq<string>, t: Texts)
    requires FirstTarget(lines, t).None? && at <= |lines| && IsSection(block, h, t) && BlockAt(r, at, block)
    requires forall i :: 0 <= i < at ==> r[i] == lines[i]
    ensures FirstTarget(r, t) == Some(at + h)
  {
    FirstTargetIsFirst(lines, t);
    forall i | 0 <= i < at + h ensures !IsTarget(r[i], t) {
      if i >= at { assert r[at + (i - at)] == block[i - at]; }
    }
    FirstTargetIs(r, at + h, t);
  }

  lemma NewSectionEnds(at: nat, block: seq<string>, h: nat, r: seq<string>, t: Texts)
    requires IsSection(block, h, t) && BlockAt(r, at, block)
    ensures SectionEnd(r, at + h + 1, t) == at + h + 4
    ensures HasValue(r, at + h + 1, at + h + 4, t.app, t) && HasValue(r, at + h + 1, at + h + 4, t.load, t)
  {
    assert r[at + (h + 1)] == block[h + 1] && r[at + (h + 2)] == block[h + 2];
    assert r[at + (h + 3)] == block[h + 3] && r[at + (h + 4)] == block[h + 4];
    SectionEndIs(r, at + h + 1, at + h + 4, t);
    assert HasName(r[at + h + 2], t.app, t) && HasName(r[at + h + 3], t.load, t);
  }

  /** After the patch the first target section has both values, whichever branch was taken. */
  lemma PatchCompletes(lines: seq<string>, t: Texts)
    requires Valid(t)
    ensures Complete(Patched(lines, t), t)
  {
    FirstTargetIsFirst(lines, t);
    match FirstTarget(lines, t)
    case Some(s) => ValuesCompleteSection(lines, s, t);
    case None =>
      NewSectionIs(t);
      NewSectionIsComplete(lines, EditOf(lines, t).at, NewSection(t), 1, t);
  }

  /** On lines, patching is idempotent; and it only ever inserts one contiguous block. */
  lemma PatchIsIdempotent(lines: seq<string>, t: Texts)
    requires Valid(t)
    ensures Patched(Patched(lines, t), t) == Patched(lines, t)
  {
    PatchCompletes(lines, t);
    CompleteIsUnchanged(Patched(lines, t), t);
  }

  // ---- where the block goes, and that no line changes its section

  /** The line `at` is the first one behind line `s` that is blank or begins with a bracket. */
  ghost predicate FirstStopBehind(lines: seq<string>, s: nat, at: nat, t: Texts) {
    && s < at <= |lines|
    && (forall i :: s < i < at ==> t.strip(lines[i]) != "" && t.strip(lines[i])[0] != '[')
    && (at < |lines| ==> t.strip(lines[at]) == "" || t.strip(lines[at])[0] == '[')
  }

  /** The line `at` is the first one behind line `k` that begins with a bracket. */
  ghost predicate FirstBracketBehind(lines: seq<string>, k: nat, at: nat, t: Texts) {
    && k < at <= |lines|
    && (forall i :: k < i < at ==> t.strip(lines[i]) == "" || t.strip(lines[i])[0] != '[')
    && (at < |lines| ==> t.strip(lines[at]) != "" && t.strip(lines[at])[0] == '[')
  }

  ghost predicate StartsWith(lines: seq<string>, i: nat, text: string, t: Texts) {
    i < |lines| && text <= t.strip(lines[i])
  }

  /** A line of the section, from its header up to `at`, begins with `name`. */
  ghost predicate Present(lines: seq<string>, s: nat, at: nat, name: string, t: Texts) {
    exists i :: s < i < at && StartsWith(lines, i, name, t)
  }

  /** The edit, without reference to how it is found. */
  lemma EditExactly(lines: seq<string>, t: Texts)
    ensures match FirstTarget(lines, t)
            case None => forall i :: 0 <= i < |lines| ==> !StartsWith(lines, i, t.target, t)
            case Some(s) =>
              && StartsWith(lines, s, t.target, t)
              && forall i :: 0 <= i < s ==> !StartsWith(lines, i, t.target, t)
    ensures match LastSoftware(lines, t)
            case None => forall i :: 0 <= i < |lines| ==> !StartsWith(lines, i, t.software, t)
            case Some(k) =>
              && StartsWith(lines, k, t.software, t)
              && forall i :: k < i < |lines| ==> !StartsWith(lines, i, t.software, t)
    ensures var edit := EditOf(lines, t);
            match FirstTarget(lines, t)
            case Some(s) =>
              && FirstStopBehind(lines, s, edit.at, t)
              && edit.block == (if Present(lines, s, edit.at, t.app, t) then [] else [t.appLine])
                             + (if Present(lines, s, edit.at, t.load, t) then [] else [t.loadLine])
            case None =>
              && edit.block == ["\n", t.headerLine, t.timeLine, t.appLine, t.loadLine, "\n"]
              && match LastSoftware(lines, t)
                 case Some(k) => FirstBracketBehind(lines, k, edit.at, t)
                 case None => edit.at == |lines|
  {
    FirstTargetIsFirst(lines, t);
    LastSoftwareIsLast(lines, t);
    if FirstTarget(lines, t).Some? {
      var s := FirstTarget(lines, t).value;
      PresentIsHasValue(lines, s, EditOf(lines, t).at, t.app, t);
      PresentIsHasValue(lines, s, EditOf(lines, t).at, t.load, t);
    }
  }

  lemma PresentIsHasValue(lines: seq<string>, s: nat, at: nat, name: string, t: Texts)
    requires s + 1 <= at <= |lines|
    ensures Present(lines, s, at, name, t) <==> HasValue(lines, s + 1, at, name, t)
  {
    if HasValue(lines, s + 1, at, name, t) {
      var i :| s + 1 <= i < at && HasName(lines[i], name, t);
      assert StartsWith(lines, i, name, t);
    }
    if Present(lines, s, at, name, t) {
      var i :| s < i < at && StartsWith(lines, i, name, t);
      assert HasName(lines[i], name, t);
    }
  }

  predicate Bracketed(line: string, t: Texts) {
    t.strip(line) != "" && t.strip(line)[0] == '['
  }

  /** The header that line `i` is under, or is. */
  function Owner(lines: seq<string>, i: nat, t: Texts): Option<nat>
    requires i < |lines|
  {
    if Bracketed(lines[i], t) then Some(i) else if i == 0 then None else Owner(lines, i - 1, t)
  }

  /** Where line `i` is after the edit. */
  function Moved(i: nat, edit: Edit): nat {
    if i < edit.at then i else i + |edit.block|
  }

  function MovedOwner(owner: Option<nat>, edit: Edit): Option<nat> {
    match owner
    case None => None
    case Some(h) => Some(Moved(h, edit))
  }

  /** Nothing behind the block looks back past it, or the block holds no header. */
  ghost predicate Separated(lines: seq<string>, edit: Edit, t: Texts) {
    || (forall i :: 0 <= i < |edit.block| ==> !Bracketed(edit.block[i], t))
    || edit.at >= |lines| || Bracketed(lines[edit.at], t)
  }

  lemma {:induction false} OwnerInFront(lines: seq<string>, r: seq<string>, n: nat, i: nat, t: Texts)
    requires i < n <= |lines| && n <= |r| && forall k :: 0 <= k < n ==> r[k] == lines[k]
    ensures Owner(r, i, t) == Owner(lines, i, t)
    ensures Owner(lines, i, t).Some? ==> Owner(lines, i, t).value <= i
  {
    if !Bracketed(lines[i], t) && i > 0 { OwnerInFront(lines, r, n, i - 1, t); }
  }

  /** Through lines without a bracket, the header stays the same. */
  lemma {:induction false} OwnerAcross(r: seq<string>, h: nat, i: nat, t: Texts)
    requires h <= i < |r| && forall k :: h < k <= i ==> !Bracketed(r[k], t)
    ensures Owner(r, i, t) == Owner(r, h, t)
    decreases i
  {
    if h < i { OwnerAcross(r, h, i - 1, t); }
  }

  lemma {:induction false} NoOwner(r: seq<string>, i: nat, t: Texts)
    requires i < |r| && forall k :: 0 <= k <= i ==> !Bracketed(r[k], t)
    ensures Owner(r, i, t) == None
  {
    if i > 0 { NoOwner(r, i - 1, t); }
  }

  lemma {:induction false} OwnerKept(lines: seq<string>, edit: Edit, r: seq<string>, i: nat, t: Texts)
    requires Inserted(lines, edit, r) && Separated(lines, edit, t) && i < |lines|
    ensures r[Moved(i, edit)] == lines[i]
    ensures Owner(r, Moved(i, edit), t) == MovedOwner(Owner(lines, i, t), edit)
  {
    var n := |edit.block|;
    if i < edit.at {
      OwnerInFront(lines, r, edit.at, i, t);
    } else if !Bracketed(lines[i], t) {
      assert r[i + n] == lines[i];
      if i > edit.at {
        OwnerKept(lines, edit, r, i - 1, t);
      } else {
        OwnerPastBlock(lines, edit, r, t);
      }
    }
  }

  lemma OwnerPastBlock(lines: seq<string>, edit: Edit, r: seq<string>, t: Texts)
    requires Inserted(lines, edit, r) && edit.at < |lines| && !Bracketed(lines[edit.at], t)
    requires forall i :: 0 <= i < |edit.block| ==> !Bracketed(edit.block[i], t)
    ensures Owner(r, edit.at + |edit.block|, t) == MovedOwner(Owner(lines, edit.at, t), edit)
  {
    var at, n := edit.at, |edit.block|;
    forall i | at <= i <= at + n ensures !Bracketed(r[i], t) {
      if i < at + n { assert r[at + (i - at)] == edit.block[i - at]; }
      else { assert r[at + n] == lines[at]; }
    }
    if at == 0 {
      NoOwner(r, n, t);
    } else {
      OwnerAcross(r, at - 1, at + n, t);
      OwnerInFront(lines, r, at, at - 1, t);
    }
  }

  lemma EditSeparates(lines: seq<string>, t: Texts)
    requires Valid(t)
    ensures Separated(lines, EditOf(lines, t), t)
  {
    FirstTargetIsFirst(lines, t);
    if FirstTarget(lines, t).Some? {
      MissingHasNoStop(lines, FirstTarget(lines, t).value + 1, EditOf(lines, t).at, t);
      NoStopNoBracket(EditOf(lines, t).block, t);
    } else if LastSoftware(lines, t).Some? {
      EditExactly(lines, t);
    }
  }

  lemma NoStopNoBracket(block: seq<string>, t: Texts)
    requires forall i :: 0 <= i < |block| ==> !IsStop(block[i], t)
    ensures forall i :: 0 <= i < |block| ==> !Bracketed(block[i], t)
  {
    forall i | 0 <= i < |block| ensures !Bracketed(block[i], t) {
      assert !IsStop(block[i], t);
    }
  }

  /** The patch takes no line out of its section: every line is still there, under the same header as
      before, whichever branch is taken. */
  lemma SectionsAreKept(lines: seq<string>, t: Texts, i: nat)
    requires Valid(t) && i < |lines|
    ensures var edit, r := EditOf(lines, t), Patched(lines, t);
            && Moved(i, edit) < |r| && r[Moved(i, edit)] == lines[i]
            && Owner(r, Moved(i, edit), t) == MovedOwner(Owner(lines, i, t), edit)
  {
    EditSeparates(lines, t);
    InsertInserts(lines, EditOf(lines, t));
    OwnerKept(lines, EditOf(lines, t), Patched(lines, t), i, t);
  }

  // ---- the order of the keys

  /** The headers under `Software`, stripped, in file order. */
  function Keys(lines: seq<string>, t: Texts): seq<string> {
    if lines == [] then []
    else (if IsSoftware(lines[0], t) then [t.strip(lines[0])] else []) + Keys(lines[1..], t)
  }

  lemma {:induction false} KeysConcat(a: seq<string>, b: seq<string>, t: Texts)
    ensures Keys(a + b, t) == Keys(a, t) + Keys(b, t)
  {
    if a == [] {
      assert a + b == b;
    } else {
      assert (a + b)[1..] == a[1..] + b;
      KeysConcat(a[1..], b, t);
    }
  }

  lemma {:induction false} NoKeys(lines: seq<string>, t: Texts)
    requires forall i :: 0 <= i < |lines| ==> !IsSoftware(lines[i], t)
    ensures Keys(lines, t) == []
  {
    if lines != [] { NoKeys(lines[1..], t); }
  }

  lemma OneKey(line: string, t: Texts)
    ensures Keys([line], t) == if IsSoftware(line, t) then [t.strip(line)] else []
  {}

  lemma ValuesHaveNoKeys(block: seq<string>, t: Texts)
    requires ValidLines(t) && forall i :: 0 <= i < |block| ==> !IsStop(block[i], t)
    ensures Keys(block, t) == []
  {
    NoKeys(block, t);
  }

  lemma NewSectionHasOneKey(t: Texts)
    requires Valid(t)
    ensures Keys(NewSection(t), t) == [t.strip(t.headerLine)]
  {
    var values := [t.timeLine, t.appLine, t.loadLine];
    assert NewSection(t) == ["\n"] + ([t.headerLine] + (values + ["\n"]));
    OneKey("\n", t);
    OneKey(t.headerLine, t);
    ValuesHaveNoKeys(values, t);
    KeysOfParts(["\n"], [t.headerLine], values, t);
  }

  lemma KeysOfParts(blank: seq<string>, header: seq<string>, values: seq<string>, t: Texts)
    requires Keys(blank, t) == [] && Keys(values, t) == []
    ensures Keys(blank + (header + (values + blank)), t) == Keys(header, t)
  {
    KeysConcat(values, blank, t);
    KeysConcat(header, values + blank, t);
    KeysConcat(blank, header + (values + blank), t);
  }

  lemma KeysOfInsert(lines: seq<string>, edit: Edit, t: Texts)
    requires edit.at <= |lines| && (Keys(edit.block, t) == [] || Keys(lines[edit.at..], t) == [])
    ensures Keys(Insert(lines, edit), t) == Keys(lines, t) + Keys(edit.block, t)
  {
    assert lines == lines[..edit.at] + lines[edit.at..];
    KeysAround(lines[..edit.at], edit.block, lines[edit.at..], t);
  }

  lemma KeysAround(front: seq<string>, block: seq<string>, back: seq<string>, t: Texts)
    requires Keys(block, t) == [] || Keys(back, t) == []
    ensures Keys(front + block + back, t) == Keys(front + back, t) + Keys(block, t)
  {
    KeysConcat(front + block, back, t);
    KeysConcat(front, block, t);
    KeysConcat(front, back, t);
    SwapWithNone(Keys(front, t), Keys(block, t), Keys(back, t));
  }

  lemma SwapWithNone<T>(a: seq<T>, b: seq<T>, c: seq<T>)
    requires b == [] || c == []
    ensures a + b + c == a + c + b
  {}

  lemma NoKeyBehindNewSection(lines: seq<string>, t: Texts)
    requires FirstTarget(lines, t).None?
    ensures Keys(lines[EditOf(lines, t).at..], t) == []
  {
    LastSoftwareIsLast(lines, t);
    NoKeys(lines[EditOf(lines, t).at..], t);
  }

  /** The patch leaves the keys as they are, but for a new one behind all of them. */
  lemma KeysOfPatched(lines: seq<string>, t: Texts)
    requires Valid(t)
    ensures Keys(Patched(lines, t), t)
         == Keys(lines, t) + if FirstTarget(lines, t).Some? then [] else [t.strip(t.headerLine)]
  {
    var edit := EditOf(lines, t);
    FirstTargetIsFirst(lines, t);
    match FirstTarget(lines, t)
    case Some(s) =>
      MissingHasNoStop(lines, s + 1, edit.at, t);
      ValuesHaveNoKeys(edit.block, t);
      KeysOfInsert(lines, edit, t);
    case None =>
      NewSectionHasOneKey(t);
      NoKeyBehindNewSection(lines, t);
      KeysOfInsert(lines, edit, t);
  }

  ghost predicate Transitive(le: (string, string) -> bool) {
    forall x, y, z :: le(x, y) && le(y, z) ==> le(x, z)
  }

  predicate Ordered(keys: seq<string>, le: (string, string) -> bool) {
    forall i, j :: 0 <= i < j < |keys| ==> le(keys[i], keys[j])
  }

  lemma OrderedWithLast(keys: seq<string>, key: string, le: (string, string) -> bool)
    requires Transitive(le) && Ordered(keys, le)
    ensures Ordered(keys + [key], le) <==> keys == [] || le(keys[|keys| - 1], key)
  {
    var more, n := keys + [key], |keys|;
    if keys != [] {
      assert more[n - 1] == keys[n - 1] && more[n] == key;
      if le(keys[n - 1], key) {
        forall i | 0 <= i < n ensures le(more[i], more[n]) {
          assert more[i] == keys[i];
          if i < n - 1 { assert le(keys[i], keys[n - 1]) && le(keys[n - 1], key); }
        }
      }
    }
  }

  /** Keys in order, whatever the order is, stay in order exactly if the section was there, or no
      other key was, or the last one does not belong behind the new one. */
  lemma OrderKeptExactly(lines: seq<string>, t: Texts, le: (string, string) -> bool)
    requires Valid(t) && Transitive(le) && Ordered(Keys(lines, t), le)
    ensures var keys := Keys(lines, t);
            Ordered(Keys(Patched(lines, t), t), le) <==>
              || FirstTarget(lines, t).Some?
              || keys == []
              || le(keys[|keys| - 1], t.strip(t.headerLine))
  {
    KeysOfPatched(lines, t);
    OrderedWithLast(Keys(lines, t), t.strip(t.headerLine), le);
    assert Keys(lines, t) + [] == Keys(lines, t);
  }

  // ---- the file as text

  /** Where `splitlines` cuts.  Reading in text mode has turned every carriage return of the file, also
      one in front of a line feed, into a line feed, so a return can only come from a text the
      script writes; there it would become a line end when the file is read again. */
  predicate Break(c: char) {
    var n := c as int;
    10 <= n <= 13 || 28 <= n <= 30 || n == 0x85 || n == 0x2028 || n == 0x2029
  }

  /** In numbers: line feed, vertical tab, form feed, carriage return, three separators, next line, and
      the line and paragraph separators. */
  lemma BreaksExactly(c: char)
    ensures Break(c) <==> c as int in {10, 11, 12, 13, 28, 29, 30, 0x85, 0x2028, 0x2029}
  {}

  function LineLength(c: string): (n: nat)
    ensures n <= |c| && (c != "" ==> n > 0)
  {
    if c == "" then 0 else if Break(c[0]) then 1 else 1 + LineLength(c[1..])
  }

  /** `content.splitlines(keepends=True)`. */
  function SplitLines(c: string): seq<string> {
    if c == "" then [] else [c[..LineLength(c)]] + SplitLines(c[LineLength(c)..])
  }

  function Joined(lines: seq<string>): string {
    if lines == [] then "" else lines[0] + Joined(lines[1..])
  }

  function PatchContent(c: string, t: Texts): string {
    Joined(Patched(SplitLines(c), t))
  }

  method PatchFile(content: string, t: Texts) returns (patched: string)
    ensures patched == PatchContent(content, t)
  {
    var lines := PatchLines(SplitLines(content), t);
    patched := Joined(lines);
  }

  predicate NoBreaks(s: string) {
    forall i :: 0 <= i < |s| ==> !Break(s[i])
  }

  predicate Line(l: string) {
    l != "" && NoBreaks(l[..|l| - 1])
  }

  predicate Terminated(l: string) {
    Line(l) && Break(l[|l| - 1])
  }

  /** What splitting produces: only the last line may lack its end. */
  predicate WellFormed(lines: seq<string>) {
    forall i :: 0 <= i < |lines| ==> Line(lines[i]) && (i < |lines| - 1 ==> Terminated(lines[i]))
  }

  lemma {:induction false} LineLengthIs(l: string, rest: string)
    requires Line(l) && (Terminated(l) || rest == "")
    ensures LineLength(l + rest) == |l|
    decreases |l|
  {
    if |l| == 1 {
      assert (l + rest)[0] == l[0] && (l + rest)[1..] == rest;
    } else {
      var t := l[1..];
      assert l[0] == l[..|l| - 1][0];
      assert (l + rest)[1..] == t + rest;
      assert t[..|t| - 1] == l[..|l| - 1][1..];
      LineLengthIs(t, rest);
    }
  }

  lemma {:induction false} SplitJoined(lines: seq<string>)
    requires WellFormed(lines)
    ensures SplitLines(Joined(lines)) == lines
  {
    if lines != [] {
      var l, rest := lines[0], lines[1..];
      assert forall i :: 0 <= i < |rest| ==> rest[i] == lines[i + 1];
      SplitJoined(rest);
      LineLengthIs(l, Joined(rest));
      assert Joined(lines)[..|l|] == l && Joined(lines)[|l|..] == Joined(rest);
    }
  }

  lemma {:induction false} FirstLine(c: string)
    requires c != ""
    ensures var n := LineLength(c); Line(c[..n]) && (n < |c| ==> Terminated(c[..n]))
  {
    var n := LineLength(c);
    if !Break(c[0]) && c[1..] != "" {
      FirstLine(c[1..]);
      var l, t := c[..n], c[1..][..n - 1];
      assert l == [c[0]] + t;
      assert forall i :: 1 <= i < |l| - 1 ==> l[i] == t[..|t| - 1][i - 1];
    }
  }

  lemma {:induction false} SplitIsWellFormed(c: string)
    ensures WellFormed(SplitLines(c)) && Joined(SplitLines(c)) == c
  {
    if c != "" {
      var n := LineLength(c);
      FirstLine(c);
      SplitIsWellFormed(c[n..]);
      LineInFront(c[..n], SplitLines(c[n..]));
      assert c == c[..n] + c[n..];
    }
  }

  lemma LineInFront(l: string, rest: seq<string>)
    requires Line(l) && (rest == [] || Terminated(l)) && WellFormed(rest)
    ensures WellFormed([l] + rest) && Joined([l] + rest) == l + Joined(rest)
  {
    assert ([l] + rest)[1..] == rest;
  }

  ghost predicate AllTerminated(lines: seq<string>) {
    forall i :: 0 <= i < |lines| ==> Terminated(lines[i])
  }

  /** Terminated lines inserted anywhere but behind an unterminated one. */
  lemma InsertIsWellFormed(lines: seq<string>, edit: Edit)
    requires WellFormed(lines) && edit.at <= |lines| && AllTerminated(edit.block)
    requires edit.at == |lines| && lines != [] ==> Terminated(lines[|lines| - 1])
    ensures WellFormed(Insert(lines, edit))
  {
    InsertInserts(lines, edit);
    PlacedIsWellFormed(lines, edit.at, edit.block, Insert(lines, edit));
  }

  lemma PlacedIsWellFormed(lines: seq<string>, at: nat, block: seq<string>, r: seq<string>)
    requires WellFormed(lines) && AllTerminated(block) && at <= |lines| && |r| == |lines| + |block|
    requires at == |lines| && lines != [] ==> Terminated(lines[|lines| - 1])
    requires forall i :: 0 <= i < at ==> r[i] == lines[i]
    requires forall i :: 0 <= i < |block| ==> r[at + i] == block[i]
    requires forall i :: at <= i < |lines| ==> r[i + |block|] == lines[i]
    ensures WellFormed(r)
  {
    if at == |lines| {
      EndIsWellFormed(lines, block, r);
    } else {
      MiddleIsWellFormed(lines, at, block, r);
    }
  }

  lemma EndIsWellFormed(lines: seq<string>, block: seq<string>, r: seq<string>)
    requires WellFormed(lines) && AllTerminated(block) && (lines != [] ==> Terminated(lines[|lines| - 1]))
    requires |r| == |lines| + |block|
    requires forall i :: 0 <= i < |lines| ==> r[i] == lines[i]
    requires forall i :: 0 <= i < |block| ==> r[|lines| + i] == block[i]
    ensures WellFormed(r)
  {
    forall i | 0 <= i < |r| ensures Terminated(r[i]) {
      if i >= |lines| { assert r[|lines| + (i - |lines|)] == block[i - |lines|]; }
    }
  }

  lemma MiddleIsWellFormed(lines: seq<string>, at: nat, block: seq<string>, r: seq<string>)
    requires WellFormed(lines) && AllTerminated(block) && at < |lines| && |r| == |lines| + |block|
    requires forall i :: 0 <= i < at ==> r[i] == lines[i]
    requires forall i :: 0 <= i < |block| ==> r[at + i] == block[i]
    requires forall i :: at <= i < |lines| ==> r[i + |block|] == lines[i]
    ensures WellFormed(r)
  {
    forall i | at <= i < at + |block| ensures Terminated(r[i]) {
      assert r[at + (i - at)] == block[i - at];
    }
    forall i | at + |block| <= i < |r| ensures r[i] == lines[i - |block|] {
      assert r[(i - |block|) + |block|] == lines[i - |block|];
    }
  }

  lemma EditBlockIsTerminated(lines: seq<string>, t: Texts)
    requires Valid(t)
    ensures AllTerminated(EditOf(lines, t).block)
  {
    assert Terminated("\n");
  }

  /** The block goes behind a last line that has no end. */
  predicate Glued(lines: seq<string>, t: Texts) {
    var edit := EditOf(lines, t);
    lines != [] && edit.at == |lines| && edit.block != [] && !Terminated(lines[|lines| - 1])
  }

  /** Otherwise the file read back has exactly the patched lines, and a second run leaves it alone. */
  lemma PatchedFileIsStable(c: string, t: Texts)
    requires Valid(t) && !Glued(SplitLines(c), t)
    ensures SplitLines(PatchContent(c, t)) == Patched(SplitLines(c), t)
    ensures PatchContent(PatchContent(c, t), t) == PatchContent(c, t)
  {
    var lines := SplitLines(c);
    SplitIsWellFormed(c);
    PatchedIsWellFormed(lines, t);
    SplitJoined(Patched(lines, t));
    PatchIsIdempotent(lines, t);
  }

  lemma PatchedIsWellFormed(lines: seq<string>, t: Texts)
    requires Valid(t) && WellFormed(lines) && !Glued(lines, t)
    ensures WellFormed(Patched(lines, t))
  {
    var edit := EditOf(lines, t);
    EditBlockIsTerminated(lines, t);
    if edit.block == [] {
      assert Patched(lines, t) == lines;
    } else {
      InsertIsWellFormed(lines, edit);
    }
  }

  // ---- a last line without its end

  lemma GluedText(x: string, l: string, t: Texts)
    requires Valid(t) && t.strip(x) != "" && (l == t.appLine || l == t.loadLine)
    ensures t.strip(x) <= t.strip(x + l) && t.strip(x + l)[0] == t.strip(x)[0]
  {}

  function Glue(lines: seq<string>, block: seq<string>): seq<string>
    requires lines != [] && block != []
  {
    var m := |lines| - 1;
    lines[..m] + ([lines[m] + block[0]] + block[1..])
  }

  lemma {:induction false} JoinedConcat(a: seq<string>, b: seq<string>)
    ensures Joined(a + b) == Joined(a) + Joined(b)
  {
    if a == [] {
      assert a + b == b;
    } else {
      assert (a + b)[1..] == a[1..] + b;
      JoinedConcat(a[1..], b);
    }
  }

  lemma JoinedCons(x: string, lines: seq<string>)
    ensures Joined([x] + lines) == x + Joined(lines)
  {
    assert ([x] + lines)[1..] == lines;
  }

  lemma JoinedRegroups(a: seq<string>, x: string, l: string, b: seq<string>)
    ensures Joined(a + ([x] + ([l] + b))) == Joined(a + ([x + l] + b))
  {
    JoinedTwo(x, l, b);
    JoinedConcat(a, [x] + ([l] + b));
    JoinedConcat(a, [x + l] + b);
  }

  lemma JoinedTwo(x: string, l: string, b: seq<string>)
    ensures Joined([x] + ([l] + b)) == Joined([x + l] + b)
  {
    JoinedCons(x, [l] + b);
    JoinedCons(l, b);
    JoinedCons(x + l, b);
    ConcatAssociates(x, l, Joined(b));
  }

  lemma SplitBeforeLast(lines: seq<string>, block: seq<string>)
    requires lines != [] && block != []
    ensures var m := |lines| - 1; lines + block == lines[..m] + ([lines[m]] + ([block[0]] + block[1..]))
  {}

  lemma JoinedGlue(lines: seq<string>, block: seq<string>)
    requires lines != [] && block != []
    ensures Joined(lines + block) == Joined(Glue(lines, block))
  {
    var m := |lines| - 1;
    SplitBeforeLast(lines, block);
    JoinedRegroups(lines[..m], lines[m], block[0], block[1..]);
  }

  lemma GlueIsWellFormed(lines: seq<string>, block: seq<string>)
    requires WellFormed(lines) && lines != [] && !Terminated(lines[|lines| - 1])
    requires block != [] && AllTerminated(block)
    ensures WellFormed(Glue(lines, block)) && AllTerminated(Glue(lines, block))
  {
    var m := |lines| - 1;
    var x, l, r := lines[m], block[0], Glue(lines, block);
    assert Line(x) && !Break(x[|x| - 1]);
    var y := x + l;
    forall i | 0 <= i < |y| - 1 ensures !Break(y[i]) {
      if i < |x| - 1 { assert y[i] == x[..|x| - 1][i]; }
      else if i >= |x| { assert y[i] == l[..|l| - 1][i - |x|]; }
    }
    assert Terminated(y);
    forall i | 0 <= i < |r| ensures Terminated(r[i]) {
      if i < m { assert r[i] == lines[i]; }
      else if i == m { assert r[i] == y; }
      else { assert r[i] == block[i - m]; }
    }
  }

  /** What a second run reads after the block was glued to the last line. */
  lemma GluedFileReads(c: string, t: Texts)
    requires Valid(t) && Glued(SplitLines(c), t)
    ensures var lines := SplitLines(c); var block := EditOf(lines, t).block;
            SplitLines(PatchContent(c, t)) == Glue(lines, block) && AllTerminated(Glue(lines, block))
  {
    SplitIsWellFormed(c);
    var glued := GluedLines(SplitLines(c), t);
    SplitJoined(glued);
  }

  lemma GluedLines(lines: seq<string>, t: Texts) returns (glued: seq<string>)
    requires Valid(t) && WellFormed(lines) && Glued(lines, t)
    ensures glued == Glue(lines, EditOf(lines, t).block) && Joined(glued) == Joined(Patched(lines, t))
    ensures WellFormed(glued) && AllTerminated(glued)
  {
    var block := EditOf(lines, t).block;
    EditBlockIsTerminated(lines, t);
    assert Patched(lines, t) == lines + block;
    JoinedGlue(lines, block);
    GlueIsWellFormed(lines, block);
    glued := Glue(lines, block);
  }

  // a new section begins with an empty line, so the gluing only ends the last line

  lemma EndedLinesHaveNoTarget(lines: seq<string>, t: Texts)
    requires Valid(t) && lines != [] && FirstTarget(lines, t).None?
    ensures FirstTarget(lines[|lines| - 1 := lines[|lines| - 1] + "\n"], t).None?
  {
    var ended := lines[|lines| - 1 := lines[|lines| - 1] + "\n"];
    FirstTargetIsFirst(lines, t);
    assert t.strip(lines[|lines| - 1] + "\n") == t.strip(lines[|lines| - 1]);
    FirstTargetIsFirst(ended, t);
  }

  lemma GlueEndsLine(lines: seq<string>, block: seq<string>)
    requires lines != [] && block != []
    ensures var ended := lines[|lines| - 1 := lines[|lines| - 1] + block[0]];
            Insert(ended, Edit(|ended|, block[1..])) == Glue(lines, block)
  {}

  lemma GluedSectionIsComplete(lines: seq<string>, t: Texts)
    requires Valid(t) && lines != [] && FirstTarget(lines, t).None?
    ensures Complete(Glue(lines, NewSection(t)), t)
  {
    var block := NewSection(t);
    var ended := lines[|lines| - 1 := lines[|lines| - 1] + block[0]];
    EndedLinesHaveNoTarget(lines, t);
    NewSectionIs(t);
    NewSectionIsComplete(ended, |ended|, block[1..], 0, t);
    GlueEndsLine(lines, block);
  }

  // values are glued to the last line of the section

  /** The value whose line comes first in the block. */
  function FirstMissing(lines: seq<string>, from: nat, to: nat, t: Texts): string
    requires from <= to <= |lines|
  {
    if HasValue(lines, from, to, t.app, t) then t.load else t.app
  }

  ghost predicate GluedSection(lines: seq<string>, s: nat, block: seq<string>, t: Texts) {
    && Valid(t) && s < |lines| && FirstTarget(lines, t) == Some(s) && SectionEnd(lines, s + 1, t) == |lines|
    && block == Missing(lines, s + 1, |lines|, t) && block != []
  }

  lemma LastLineIsNotBlank(lines: seq<string>, s: nat, t: Texts)
    requires s < |lines| && FirstTarget(lines, t) == Some(s) && SectionEnd(lines, s + 1, t) == |lines|
    requires t.target != ""
    ensures t.strip(lines[|lines| - 1]) != ""
    ensures s < |lines| - 1 ==> !IsStop(lines[|lines| - 1], t)
  {
    FirstTargetIsFirst(lines, t);
    if s == |lines| - 1 {
      TargetIsNotBlank(lines[s], t);
    } else {
      NoStopInside(lines, s + 1, |lines| - 1, t);
    }
  }

  lemma TargetIsNotBlank(line: string, t: Texts)
    requires IsTarget(line, t) && t.target != ""
    ensures t.strip(line) != ""
  {}

  lemma NoStopInside(lines: seq<string>, from: nat, i: nat, t: Texts)
    requires from <= i < |lines| && i < SectionEnd(lines, from, t)
    ensures !IsStop(lines[i], t)
  {}

  lemma GlueSection(lines: seq<string>, s: nat, block: seq<string>, t: Texts)
    requires GluedSection(lines, s, block, t)
    ensures var r := Glue(lines, block);
            s < |r| && FirstTarget(r, t) == Some(s) && SectionEnd(r, s + 1, t) == |r|
  {
    var r, m := Glue(lines, block), |lines| - 1;
    FirstTargetIsFirst(lines, t);
    LastLineIsNotBlank(lines, s, t);
    assert block[0] == t.appLine || block[0] == t.loadLine;
    GluedText(lines[m], block[0], t);
    GluePlaces(lines, block);
    FirstTargetIs(r, s, t);
    forall i | s + 1 <= i < |r| ensures !IsStop(r[i], t) {
      if i < m { assert r[i] == lines[i]; }
      else if i > m { assert r[i] == block[i - m]; }
    }
    SectionEndIs(r, s + 1, |r|, t);
  }

  lemma GluePlaces(lines: seq<string>, block: seq<string>)
    requires lines != [] && block != []
    ensures var r, m := Glue(lines, block), |lines| - 1;
            && |r| == m + |block| && r[m] == lines[m] + block[0]
            && (forall i :: 0 <= i < m ==> r[i] == lines[i])
            && (forall i :: m < i < |r| ==> r[i] == block[i - m])
  {}

  /** The first missing value is found again only if the glued line happens to begin with its name. */
  lemma GlueFirstValue(lines: seq<string>, s: nat, block: seq<string>, t: Texts)
    requires GluedSection(lines, s, block, t)
    ensures var r, m, first := Glue(lines, block), |lines| - 1, FirstMissing(lines, s + 1, |lines|, t);
            s < |r| && (HasValue(r, s + 1, |r|, first, t) <==> s < m && HasName(r[m], first, t))
  {
    var r, m, first := Glue(lines, block), |lines| - 1, FirstMissing(lines, s + 1, |lines|, t);
    GluePlaces(lines, block);
    if HasValue(r, s + 1, |r|, first, t) {
      var i :| s + 1 <= i < |r| && HasName(r[i], first, t);
      if i < m { assert false; }
      if i > m { assert false; }
    }
  }

  /** The other value always is. */
  lemma GlueOtherValue(lines: seq<string>, s: nat, block: seq<string>, t: Texts)
    requires GluedSection(lines, s, block, t)
    ensures var r := Glue(lines, block);
            var other := if HasValue(lines, s + 1, |lines|, t.app, t) then t.app else t.load;
            s < |r| && HasValue(r, s + 1, |r|, other, t)
  {
    var r, m := Glue(lines, block), |lines| - 1;
    var other := if HasValue(lines, s + 1, |lines|, t.app, t) then t.app else t.load;
    GluePlaces(lines, block);
    if |block| == 2 {
      assert r[m + 1] == t.loadLine;
    } else {
      var i :| s + 1 <= i < |lines| && HasName(lines[i], other, t);
      if i == m { GlueKeepsName(lines, s, block, other, t); }
      assert HasName(r[i], other, t);
    }
  }

  lemma GlueKeepsName(lines: seq<string>, s: nat, block: seq<string>, name: string, t: Texts)
    requires GluedSection(lines, s, block, t) && HasName(lines[|lines| - 1], name, t)
    ensures HasName(lines[|lines| - 1] + block[0], name, t)
  {
    LastLineIsNotBlank(lines, s, t);
    GluedText(lines[|lines| - 1], block[0], t);
  }

  /** The glued block hides the first missing value from the second run. */
  predicate Spoils(c: string, t: Texts) {
    var lines := SplitLines(c);
    FirstTargetIsFirst(lines, t);
    Glued(lines, t) && FirstTarget(lines, t).Some? &&
      var s, m, edit := FirstTarget(lines, t).value, |lines| - 1, EditOf(lines, t);
      !(s < m && HasName(lines[m] + edit.block[0], FirstMissing(lines, s + 1, |lines|, t), t))
  }

  lemma PatchedIsLonger(lines: seq<string>, t: Texts)
    requires Valid(t) && !Complete(lines, t)
    ensures Joined(Patched(lines, t)) != Joined(lines)
  {
    var edit := EditOf(lines, t);
    FirstTargetIsFirst(lines, t);
    assert edit.block != [];
    EditBlockIsTerminated(lines, t);
    JoinedConcat(lines[..edit.at] + edit.block, lines[edit.at..]);
    JoinedConcat(lines[..edit.at], edit.block);
    JoinedConcat(lines[..edit.at], lines[edit.at..]);
    assert lines[..edit.at] + lines[edit.at..] == lines;
    assert |Joined(edit.block)| > 0;
  }

  /** Running the patch twice is running it once, except exactly in this case: the existing section
      reaches the end of the file, the last line has no line end, a value is missing, and the glued
      line is not read as that value. */
  lemma IdempotentExactly(c: string, t: Texts)
    requires Valid(t)
    ensures PatchContent(PatchContent(c, t), t) == PatchContent(c, t) <==> !Spoils(c, t)
  {
    var lines := SplitLines(c);
    if !Glued(lines, t) {
      PatchedFileIsStable(c, t);
    } else {
      var edit := EditOf(lines, t);
      var r := Glue(lines, edit.block);
      GluedFileReads(c, t);
      SplitIsWellFormed(PatchContent(c, t));
      FirstTargetIsFirst(lines, t);
      if FirstTarget(lines, t).None? {
        GluedSectionIsComplete(lines, t);
        CompleteIsUnchanged(r, t);
      } else {
        var s := FirstTarget(lines, t).value;
        GlueSection(lines, s, edit.block, t);
        GlueFirstValue(lines, s, edit.block, t);
        GlueOtherValue(lines, s, edit.block, t);
        assert Complete(r, t) <==> !Spoils(c, t);
        if Complete(r, t) { CompleteIsUnchanged(r, t); } else { PatchedIsLonger(r, t); }
      }
    }
  }

  /** And for every file whatsoever, a third run changes nothing. */
  lemma StableAfterTwo(c: string, t: Texts)
    requires Valid(t)
    ensures PatchContent(PatchContent(PatchContent(c, t), t), t) == PatchContent(PatchContent(c, t), t)
  {
    IdempotentExactly(c, t);
    if Spoils(c, t) {
      GluedFileReads(c, t);
      PatchedFileIsStable(PatchContent(c, t), t);
    }
  }
}
