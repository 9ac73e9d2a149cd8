/** Finding Excel 4.0 macro sheets: a byte scan for BoundSheet8 records ([MS-XLS] section 2.4.28,
    record type 0x0085). */
module Biff8 {
  import opened Common

  const BOUND_SHEET := 0x0085
  const MIN_LENGTH := 8
  const MAX_LENGTH := 300
  const MACRO_SHEET := 1

  /** The name as bytes still to be decoded, or a placeholder when it does not fit its record. */
  datatype SheetName = Latin1(bytes: seq<Byte>) | Utf16(bytes: seq<Byte>) | Unnamed(offset: nat)

  datatype Sheet = Sheet(name: SheetName, visibility: Byte, hidden: bool)

  function Word(raw: seq<Byte>, i: nat): nat
    requires i + 2 <= |raw|
  {
    raw[i] as int + 256 * raw[i + 1] as int
  }

  /** A whole record of plausible length sits at `i`. */
  predicate RecordAt(raw: seq<Byte>, i: nat) {
    && i + 10 < |raw|
    && Word(raw, i) == BOUND_SHEET
    && MIN_LENGTH <= Word(raw, i + 2) <= MAX_LENGTH
    && i + 4 + Word(raw, i + 2) <= |raw|
  }

  function RecordEnd(raw: seq<Byte>, i: nat): (end: nat)
    requires RecordAt(raw, i)
    ensures i + 12 <= end <= |raw|
  {
    i + 4 + Word(raw, i + 2)
  }

  /** The sheet described by a record body found at `offset`. */
  function SheetOf(body: seq<Byte>, offset: nat): Sheet
    requires |body| >= MIN_LENGTH
  {
    var length, flag := body[6] as int, body[7] as int;
    var name := if flag == 0 && |body| >= 8 + length then Latin1(body[8..8 + length])
                else if flag == 1 && |body| >= 8 + length * 2 then Utf16(body[8..8 + length * 2])
                else Unnamed(offset);
    Sheet(name, body[4], body[4] != 0)
  }

  function MacroIn(body: seq<Byte>, offset: nat): seq<Sheet>
    requires |body| >= MIN_LENGTH
  {
    if body[5] == MACRO_SHEET then [SheetOf(body, offset)] else []
  }

  /** Octet by octet: the type 0x0085 and a length from 8 to 300, both low octet first, and that much
      data behind them. */
  lemma RecordExactly(raw: seq<Byte>, i: nat)
    ensures RecordAt(raw, i) <==>
              && i + 10 < |raw| && raw[i] == 0x85 && raw[i + 1] == 0
              && var length := raw[i + 2] as int + 256 * raw[i + 3] as int;
              8 <= length <= 300 && i + 4 + length <= |raw|
  {}

  /** What is reported of a record: nothing unless its sixth octet is 1; otherwise the visibility in the
      fifth, and as name the octets behind the eighth, one or two for each of the characters counted in the
      seventh as the eighth says, if they fit. */
  lemma MacroExactly(body: seq<Byte>, offset: nat)
    requires |body| >= 8
    ensures body[5] != 1 ==> MacroIn(body, offset) == []
    ensures body[5] == 1 ==>
              && |MacroIn(body, offset)| == 1
              && var sheet := MacroIn(body, offset)[0];
              && sheet.visibility == body[4] && (sheet.hidden <==> body[4] != 0)
              && var characters := body[6] as int;
              && (body[7] == 0 && 8 + characters <= |body| ==> sheet.name == Latin1(body[8..8 + characters]))
              && (body[7] == 1 && 8 + 2 * characters <= |body| ==> sheet.name == Utf16(body[8..8 + 2 * characters]))
              && (body[7] > 1 || 8 + (if body[7] == 0 then 1 else 2) * characters > |body| ==>
                    sheet.name == Unnamed(offset))
  {}

  /** What the scan reports from position `i` on. */
  function ScanFrom(raw: seq<Byte>, i: nat): seq<Sheet>
    decreases if i < |raw| then |raw| - i else 0
  {
    if i + 10 >= |raw| then []
    else if RecordAt(raw, i) then
      MacroIn(raw[i + 4..RecordEnd(raw, i)], i) + ScanFrom(raw, RecordEnd(raw, i))
    else ScanFrom(raw, i + 2)
  }

  method DetectXlm(raw: seq<Byte>) returns (sheets: seq<Sheet>)
    ensures sheets == ScanFrom(raw, 0)
  {
    sheets := [];
    var i := 0;
    while i + 10 < |raw|
      invariant sheets + ScanFrom(raw, i) == ScanFrom(raw, 0)
      decreases if i < |raw| then |raw| - i else 0
    {
      var rtype := Word(raw, i);
      var rlen := Word(raw, i + 2);
      ghost var here := i;
      ghost var found: seq<Sheet> := [];
      if rtype == BOUND_SHEET && MIN_LENGTH <= rlen <= MAX_LENGTH && i + 4 + rlen <= |raw| {
        var body := raw[i + 4..i + 4 + rlen];
        found := MacroIn(body, i);
        if body[5] == MACRO_SHEET {
          sheets := sheets + [SheetOf(body, i)];
        }
        i := i + 4 + rlen;
      } else {
        i := i + 2;
      }
      OneScanStep(raw, here, i, found);
    }
  }

  /** One round of the loop: what it finds at `i`, and where it goes on. */
  lemma OneScanStep(raw: seq<Byte>, i: nat, next: nat, found: seq<Sheet>)
    requires i + 10 < |raw|
    requires next == if RecordAt(raw, i) then RecordEnd(raw, i) else i + 2
    requires found == if RecordAt(raw, i) then MacroIn(raw[i + 4..RecordEnd(raw, i)], i) else []
    ensures ScanFrom(raw, i) == found + ScanFrom(raw, next)
  {}

  // ---- the accepted records

  function AcceptedFrom(raw: seq<Byte>, i: nat): seq<nat>
    decreases if i < |raw| then |raw| - i else 0
  {
    if i + 10 >= |raw| then []
    else if RecordAt(raw, i) then [i] + AcceptedFrom(raw, RecordEnd(raw, i))
    else AcceptedFrom(raw, i + 2)
  }

  ghost predicate Disjoint(raw: seq<Byte>, a: seq<nat>, low: nat) {
    && (forall k :: 0 <= k < |a| ==> low <= a[k] && RecordAt(raw, a[k]))
    && (forall k, m :: 0 <= k < m < |a| ==> RecordEnd(raw, a[k]) <= a[m])
  }

  /** Accepted records are whole, in order and disjoint, so no byte is read as part of two. */
  lemma {:induction false} AcceptedAreDisjoint(raw: seq<Byte>, i: nat)
    ensures Disjoint(raw, AcceptedFrom(raw, i), i)
    decreases if i < |raw| then |raw| - i else 0
  {
    if i + 10 < |raw| {
      if RecordAt(raw, i) {
        var rest := AcceptedFrom(raw, RecordEnd(raw, i));
        AcceptedAreDisjoint(raw, RecordEnd(raw, i));
        assert Disjoint(raw, [i] + rest, i);
      } else {
        AcceptedAreDisjoint(raw, i + 2);
      }
    }
  }

  function MacrosAt(raw: seq<Byte>, offsets: seq<nat>): seq<Sheet>
    requires forall k :: 0 <= k < |offsets| ==> RecordAt(raw, offsets[k])
  {
    if offsets == [] then [] else
      assert RecordAt(raw, offsets[0]);
      MacroIn(raw[offsets[0] + 4..RecordEnd(raw, offsets[0])], offsets[0]) + MacrosAt(raw, offsets[1..])
  }

  /** The report lists the macro sheets among the accepted records, nothing else, in order. */
  lemma {:induction false} ReportsAcceptedMacros(raw: seq<Byte>, i: nat)
    ensures Disjoint(raw, AcceptedFrom(raw, i), i) && ScanFrom(raw, i) == MacrosAt(raw, AcceptedFrom(raw, i))
    decreases if i < |raw| then |raw| - i else 0
  {
    AcceptedAreDisjoint(raw, i);
    if i + 10 < |raw| {
      AcceptedStep(raw, i);
      if RecordAt(raw, i) {
        ReportsAcceptedMacros(raw, RecordEnd(raw, i));
        AcceptedMacrosStep(raw, i, RecordEnd(raw, i), AcceptedFrom(raw, RecordEnd(raw, i)));
      } else {
        ReportsAcceptedMacros(raw, i + 2);
        OneScanStep(raw, i, i + 2, []);
      }
    }
  }

  lemma AcceptedStep(raw: seq<Byte>, i: nat)
    requires i + 10 < |raw|
    ensures AcceptedFrom(raw, i)
         == if RecordAt(raw, i) then [i] + AcceptedFrom(raw, RecordEnd(raw, i)) else AcceptedFrom(raw, i + 2)
  {}

  lemma AcceptedMacrosStep(raw: seq<Byte>, i: nat, end: nat, rest: seq<nat>)
    requires RecordAt(raw, i) && end == RecordEnd(raw, i) && Disjoint(raw, rest, end)
    requires ScanFrom(raw, end) == MacrosAt(raw, rest)
    ensures Disjoint(raw, [i] + rest, i) && ScanFrom(raw, i) == MacrosAt(raw, [i] + rest)
  {
    DisjointCons(raw, i, end, rest);
    MacrosCons(raw, i, rest);
    OneScanStep(raw, i, end, MacroIn(raw[i + 4..end], i));
  }

  lemma DisjointCons(raw: seq<Byte>, i: nat, end: nat, rest: seq<nat>)
    requires RecordAt(raw, i) && end == RecordEnd(raw, i) && Disjoint(raw, rest, end)
    ensures Disjoint(raw, [i] + rest, i)
  {}

  lemma MacrosCons(raw: seq<Byte>, i: nat, rest: seq<nat>)
    requires RecordAt(raw, i) && forall k :: 0 <= k < |rest| ==> RecordAt(raw, rest[k])
    ensures MacrosAt(raw, [i] + rest) == MacroIn(raw[i + 4..RecordEnd(raw, i)], i) + MacrosAt(raw, rest)
  {
    assert ([i] + rest)[1..] == rest;
  }

  // ---- records as a writer lays them out

  /** `name` holds one byte per character, or two when `wide`; `padding` fills up the record. */
  datatype BoundSheet = BoundSheet(position: seq<Byte>, visibility: Byte, kind: Byte, wide: bool,
                                   name: seq<Byte>, padding: seq<Byte>)
  {
    predicate Valid() {
      && |position| == 4
      && (wide ==> |name| % 2 == 0)
      && Characters() < 256
      && 8 + |name| + |padding| <= 300
    }

    function Characters(): nat {
      if wide then |name| / 2 else |name|
    }

    function Body(): (b: seq<Byte>)
      requires Valid()
      ensures |b| == 8 + |name| + |padding|
    {
      position + [visibility, kind, Characters(), if wide then 1 else 0] + name + padding
    }

    function Encode(): (b: seq<Byte>)
      requires Valid()
      ensures |b| == 12 + |name| + |padding|
    {
      var n := |Body()|;
      [0x85, 0x00, n % 256, n / 256] + Body()
    }

    function Reported(): Sheet {
      Sheet(if wide then Utf16(name) else Latin1(name), visibility, visibility != 0)
    }
  }

  predicate AllValid(sheets: seq<BoundSheet>) {
    forall k :: 0 <= k < |sheets| ==> sheets[k].Valid()
  }

  function EncodeAll(sheets: seq<BoundSheet>): seq<Byte>
    requires AllValid(sheets)
  {
    if sheets == [] then [] else sheets[0].Encode() + EncodeAll(sheets[1..])
  }

  function Macros(sheets: seq<BoundSheet>): seq<Sheet> {
    if sheets == [] then [] else MacroOf(sheets[0]) + Macros(sheets[1..])
  }

  function MacroOf(s: BoundSheet): seq<Sheet> {
    if s.kind == 1 then [s.Reported()] else []
  }

  lemma BodyIsRead(s: BoundSheet, offset: nat)
    requires s.Valid()
    ensures SheetOf(s.Body(), offset) == s.Reported() && s.Body()[5] == s.kind
  {
    var b := s.Body();
    assert b[4] == s.visibility && b[5] == s.kind && b[6] == s.Characters() && b[7] == if s.wide then 1 else 0;
    assert b[8..8 + |s.name|] == s.name;
  }

  /** An encoded record is accepted where it sits. */
  lemma RecordIsAccepted(raw: seq<Byte>, i: nat, s: BoundSheet)
    requires s.Valid() && At(raw, i, s.Encode())
    ensures RecordAt(raw, i) && RecordEnd(raw, i) == i + |s.Encode()|
    ensures raw[i + 4..RecordEnd(raw, i)] == s.Body()
  {
    var n, code := |s.Body()|, s.Encode();
    var here := raw[i..i + |code|];
    assert here[0] == 0x85 && here[1] == 0 && here[2] == n % 256 && here[3] == n / 256;
    assert raw[i] == here[0] && raw[i + 1] == here[1] && raw[i + 2] == here[2] && raw[i + 3] == here[3];
    assert raw[i + 4..i + 4 + n] == here[4..] == s.Body();
  }

  lemma OneRecord(raw: seq<Byte>, i: nat, s: BoundSheet)
    requires s.Valid() && At(raw, i, s.Encode())
    ensures ScanFrom(raw, i) == MacroOf(s) + ScanFrom(raw, i + |s.Encode()|)
  {
    RecordIsAccepted(raw, i, s);
    BodyIsRead(s, i);
  }

  lemma {:induction false} AllRecords(raw: seq<Byte>, i: nat, sheets: seq<BoundSheet>, end: nat)
      returns (all: seq<Sheet>, rest: seq<Sheet>)
    requires AllValid(sheets) && At(raw, i, EncodeAll(sheets)) && end == i + |EncodeAll(sheets)|
    ensures all == ScanFrom(raw, i) && rest == ScanFrom(raw, end) && all == Macros(sheets) + rest
    decreases |sheets|
  {
    if sheets == [] {
      all, rest := ScanFrom(raw, i), ScanFrom(raw, i);
    } else {
      var next, later;
      next, all, later := FirstRecord(raw, i, sheets, end);
      later, rest := AllRecords(raw, next, sheets[1..], end);
      OneMoreSheet(sheets, all, later, rest);
    }
  }

  lemma FirstRecord(raw: seq<Byte>, i: nat, sheets: seq<BoundSheet>, end: nat)
      returns (next: nat, all: seq<Sheet>, later: seq<Sheet>)
    requires sheets != [] && AllValid(sheets) && At(raw, i, EncodeAll(sheets)) && end == i + |EncodeAll(sheets)|
    ensures At(raw, next, EncodeAll(sheets[1..])) && end == next + |EncodeAll(sheets[1..])|
    ensures all == ScanFrom(raw, i) && later == ScanFrom(raw, next) && all == MacroOf(sheets[0]) + later
  {
    AtSplit(raw, i, sheets[0].Encode(), EncodeAll(sheets[1..]));
    next, all, later := RecordThen(raw, i, sheets[0]);
  }

  lemma RecordThen(raw: seq<Byte>, i: nat, s: BoundSheet) returns (next: nat, all: seq<Sheet>, later: seq<Sheet>)
    requires s.Valid() && At(raw, i, s.Encode())
    ensures next == i + |s.Encode()|
    ensures all == ScanFrom(raw, i) && later == ScanFrom(raw, next) && all == MacroOf(s) + later
  {
    OneRecord(raw, i, s);
    next := i + |s.Encode()|;
    all, later := ScanFrom(raw, i), ScanFrom(raw, next);
  }

  lemma OneMoreSheet(sheets: seq<BoundSheet>, all: seq<Sheet>, later: seq<Sheet>, rest: seq<Sheet>)
    requires sheets != [] && all == MacroOf(sheets[0]) + later && later == Macros(sheets[1..]) + rest
    ensures all == Macros(sheets) + rest
  {}

  /** Even length, and no record at an even offset. */
  predicate Skippable(raw: seq<Byte>, length: nat) {
    && length <= |raw| && length % 2 == 0
    && forall i :: 0 <= i < length && i % 2 == 0 ==> !RecordAt(raw, i)
  }

  lemma {:induction false} SkipsPrefix(raw: seq<Byte>, length: nat, i: nat)
    requires Skippable(raw, length) && i <= length && i % 2 == 0
    ensures ScanFrom(raw, i) == ScanFrom(raw, length)
    decreases length - i
  {
    if i < length {
      assert !RecordAt(raw, i);
      SkipsPrefix(raw, length, i + 2);
    }
  }

  /** Round trip: behind a skippable prefix, the scan returns exactly the macro sheets that were
      written, in order, with their names and visibility; whatever follows is scanned after them. */
  lemma WrittenSheetsAreFound(raw: seq<Byte>, start: nat, sheets: seq<BoundSheet>, end: nat)
    requires Skippable(raw, start) && AllValid(sheets)
    requires At(raw, start, EncodeAll(sheets)) && end == start + |EncodeAll(sheets)|
    ensures ScanFrom(raw, 0) == Macros(sheets) + ScanFrom(raw, end)
    ensures end + 10 >= |raw| ==> ScanFrom(raw, 0) == Macros(sheets)
  {
    SkipsPrefix(raw, start, 0);
    var all, rest := AllRecords(raw, start, sheets, end);
    TooShort(raw, end);
  }

  lemma TooShort(raw: seq<Byte>, i: nat)
    ensures i + 10 >= |raw| ==> ScanFrom(raw, i) == []
  {}

  // ---- alignment matters

  /** Where the scan took up again for the last time before position `p`: behind the last record it
      accepted there, or at `resumed` if it accepted none from `i` on. */
  function LastResumed(raw: seq<Byte>, i: nat, p: nat, resumed: nat): nat
    decreases if i < |raw| then |raw| - i else 0
  {
    if i >= p || i + 10 >= |raw| then resumed
    else if RecordAt(raw, i) then LastResumed(raw, RecordEnd(raw, i), p, RecordEnd(raw, i))
    else LastResumed(raw, i + 2, p, resumed)
  }

  /** `end` is where the last of the accepted records before `p` ends, or `resumed` if there is none. */
  ghost predicate EndsLastBefore(raw: seq<Byte>, accepted: seq<nat>, p: nat, resumed: nat, end: nat) {
    || (end == resumed && forall k :: 0 <= k < |accepted| ==> accepted[k] >= p)
    || exists k :: LastBefore(raw, accepted, p, k) && end == RecordEnd(raw, accepted[k])
  }

  predicate LastBefore(raw: seq<Byte>, accepted: seq<nat>, p: nat, k: int) {
    && 0 <= k < |accepted| && RecordAt(raw, accepted[k]) && accepted[k] < p
    && (k + 1 < |accepted| ==> accepted[k + 1] >= p)
  }

  lemma {:induction false} LastResumedIs(raw: seq<Byte>, i: nat, p: nat, resumed: nat)
    ensures EndsLastBefore(raw, AcceptedFrom(raw, i), p, resumed, LastResumed(raw, i, p, resumed))
    decreases if i < |raw| then |raw| - i else 0
  {
    if i < p && i + 10 < |raw| {
      AcceptedStep(raw, i);
      if RecordAt(raw, i) {
        var end := RecordEnd(raw, i);
        LastResumedIs(raw, end, p, end);
        LastInFront(raw, i, AcceptedFrom(raw, end), p, resumed, LastResumed(raw, end, p, end));
      } else {
        LastResumedIs(raw, i + 2, p, resumed);
      }
    } else {
      AcceptedAreDisjoint(raw, i);
    }
  }

  lemma LastInFront(raw: seq<Byte>, i: nat, rest: seq<nat>, p: nat, resumed: nat, end: nat)
    requires RecordAt(raw, i) && i < p && EndsLastBefore(raw, rest, p, RecordEnd(raw, i), end)
    ensures EndsLastBefore(raw, [i] + rest, p, resumed, end)
  {
    var all := [i] + rest;
    if k :| LastBefore(raw, rest, p, k) && end == RecordEnd(raw, rest[k]) {
      assert all[k + 1] == rest[k] && (k + 1 < |rest| ==> all[k + 2] == rest[k + 1]);
      assert LastBefore(raw, all, p, k + 1);
    } else {
      assert LastBefore(raw, all, p, 0);
    }
  }

  /** In reach of the scan: not inside an accepted record, and an even distance behind it. */
  predicate InStep(resumed: nat, p: nat) {
    resumed <= p && (p - resumed) % 2 == 0
  }

  lemma {:induction false} AcceptedInStep(raw: seq<Byte>, i: nat, p: nat, resumed: nat)
    requires RecordAt(raw, p) && InStep(resumed, i) && (i <= p + 1 || resumed == i)
    ensures p in AcceptedFrom(raw, i) <==> i <= p && InStep(LastResumed(raw, i, p, resumed), p)
    decreases if i < |raw| then |raw| - i else 0
  {
    if i > p {
      AcceptedAreDisjoint(raw, i);
    } else if i < p {
      if RecordAt(raw, i) {
        AcceptedInStep(raw, RecordEnd(raw, i), p, RecordEnd(raw, i));
        PastStays(raw, RecordEnd(raw, i), p);
      } else {
        AcceptedInStep(raw, i + 2, p, resumed);
        if i + 2 > p { assert LastResumed(raw, i + 2, p, resumed) == resumed; }
      }
    }
  }

  lemma PastStays(raw: seq<Byte>, end: nat, p: nat)
    ensures end > p ==> LastResumed(raw, end, p, end) == end
  {}

  /** Which of all records in a file the scan accepts: exactly those at an even distance behind the
      last one it accepted before, or behind the beginning of the file. */
  lemma RecordIsSeenExactly(raw: seq<Byte>, p: nat) returns (resumed: nat)
    requires RecordAt(raw, p)
    ensures EndsLastBefore(raw, AcceptedFrom(raw, 0), p, 0, resumed)
    ensures p in AcceptedFrom(raw, 0) <==> InStep(resumed, p)
  {
    resumed := LastResumed(raw, 0, p, 0);
    LastResumedIs(raw, 0, p, 0);
    AcceptedInStep(raw, 0, p, 0);
  }

  /** So behind a stretch in which the scan, resuming at `i`, meets no record, it sees a record exactly
      if the stretch has even length. */
  lemma {:induction false} SeenBehindGap(raw: seq<Byte>, i: nat, p: nat)
    requires RecordAt(raw, p) && i <= p
    requires forall k :: i <= k < p && (k - i) % 2 == 0 ==> !RecordAt(raw, k)
    ensures p in AcceptedFrom(raw, i) <==> (p - i) % 2 == 0
  {
    GapKeepsResumed(raw, i, p, i);
    AcceptedInStep(raw, i, p, i);
  }

  lemma {:induction false} GapKeepsResumed(raw: seq<Byte>, i: nat, p: nat, resumed: nat)
    requires forall k :: i <= k < p && (k - i) % 2 == 0 ==> !RecordAt(raw, k)
    ensures LastResumed(raw, i, p, resumed) == resumed
    decreases if i < |raw| then |raw| - i else 0
  {
    if i < p && i + 10 < |raw| {
      assert !RecordAt(raw, i);
      forall k | i + 2 <= k < p && (k - (i + 2)) % 2 == 0 ensures !RecordAt(raw, k) {
        assert (k - i) % 2 == 0;
      }
      GapKeepsResumed(raw, i + 2, p, resumed);
    }
  }

  function Zeros(n: nat): seq<Byte> {
    seq(n, _ => 0)
  }

  const PLAIN_MACRO := BoundSheet([0, 0, 0, 0], 2, 1, false, [], [])

  /** An instance: one and the same record is found behind zeros of even length and missed behind
      zeros of odd length. */
  lemma OddPaddingHidesTheSheet(n: nat)
    ensures ScanFrom(Zeros(n) + PLAIN_MACRO.Encode(), 0)
         == if n % 2 == 0 then [PLAIN_MACRO.Reported()] else []
  {
    var raw := Zeros(n) + PLAIN_MACRO.Encode();
    RecordIsAccepted(raw, n, PLAIN_MACRO);
    ZerosHoldNoRecord(n, PLAIN_MACRO.Encode());
    if n % 2 == 0 {
      assert EncodeAll([PLAIN_MACRO]) == PLAIN_MACRO.Encode() + [] == PLAIN_MACRO.Encode();
      WrittenSheetsAreFound(raw, n, [PLAIN_MACRO], |raw|);
      assert Macros([PLAIN_MACRO]) == [PLAIN_MACRO.Reported()];
    } else {
      SeenBehindGap(raw, 0, n);
      NothingElseAccepted(raw, n);
    }
  }

  lemma ZerosHoldNoRecord(n: nat, rest: seq<Byte>)
    ensures forall k :: 0 <= k < n ==> !RecordAt(Zeros(n) + rest, k)
  {
    forall k | 0 <= k < n ensures !RecordAt(Zeros(n) + rest, k) {
      assert (Zeros(n) + rest)[k] == 0;
    }
  }

  lemma NothingElseAccepted(raw: seq<Byte>, n: nat)
    requires |raw| == n + 12 && n !in AcceptedFrom(raw, 0) && forall k :: 0 <= k < n ==> !RecordAt(raw, k)
    ensures ScanFrom(raw, 0) == []
  {
    ReportsAcceptedMacros(raw, 0);
    FirstAccepted(raw, AcceptedFrom(raw, 0));
  }

  lemma FirstAccepted(raw: seq<Byte>, accepted: seq<nat>)
    requires Disjoint(raw, accepted, 0)
    ensures accepted == [] || (RecordAt(raw, accepted[0]) && accepted[0] in accepted)
  {}
}
