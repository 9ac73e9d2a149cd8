/** The DNS sink: reading the question name, answering, and what a resolver makes of the answer.
    References are to RFC 1035. */
module Dns {
  import opened Common

  type Label = seq<Byte>

  // ---- names

  /** `length & 0xC0 == 0xC0`. */
  predicate PointerBits(b: Byte) {
    b >= 0xC0
  }

  /** The mask test on the byte is this comparison. */
  lemma PointerBitsIsTheMask(b: bv8)
    ensures PointerBits(b as Byte) <==> b & 0xC0 == 0xC0
  {}

  /** How a name may end: at the root label, or at a compression pointer, which is not followed. */
  datatype Name = Name(labels: seq<Label>, end: nat, pointer: bool)
  datatype Parsed = Good(name: Name) | Truncated

  /** `data[from : from + length]`, which stops at the end of the data. */
  function Slice(data: seq<Byte>, from: nat, length: nat): (s: seq<Byte>)
    ensures |s| <= length
    ensures from + length <= |data| ==> s == data[from..from + length]
  {
    if from >= |data| then [] else if from + length <= |data| then data[from..from + length] else data[from..]
  }

  function ParseFrom(data: seq<Byte>, offset: nat): Parsed
    decreases if offset < |data| then |data| - offset else 0
  {
    if offset >= |data| then Truncated
    else
      var length := data[offset];
      if length == 0 then Good(Name([], offset + 1, false))
      else if PointerBits(length) then Good(Name([], offset + 2, true))
      else
        Behind([Slice(data, offset + 1, length)], ParseFrom(data, offset + 1 + length))
  }

  /** More labels in front of what was parsed. */
  function Behind(labels: seq<Label>, parsed: Parsed): Parsed {
    match parsed
    case Truncated => Truncated
    case Good(name) => Good(name.(labels := labels + name.labels))
  }

  lemma BehindBoth(a: seq<Label>, b: seq<Label>, parsed: Parsed)
    ensures Behind(a, Behind(b, parsed)) == Behind(a + b, parsed)
  {
    if parsed.Good? {
      assert a + (b + parsed.name.labels) == a + b + parsed.name.labels;
    }
  }

  lemma BehindNothing(parsed: Parsed)
    ensures Behind([], parsed) == parsed
  {
    if parsed.Good? {
      assert [] + parsed.name.labels == parsed.name.labels;
    }
  }

  method ParseQname(data: seq<Byte>, start: nat) returns (parsed: Parsed)
    ensures parsed == ParseFrom(data, start)
  {
    var labels: seq<Label> := [];
    var offset := start;
    ghost var all, rest := ParseFrom(data, start), ParseFrom(data, start);
    BehindNothing(all);
    while true
      invariant rest == ParseFrom(data, offset) && all == Behind(labels, rest)
      decreases if offset < |data| then |data| - offset else 0
    {
      if offset >= |data| {
        NameBreaksOff(data, offset, labels, rest);
        return Truncated;
      }
      var length := data[offset];
      if length == 0 {
        NameEnds(data, offset, labels, rest);
        offset := offset + 1;
        return Good(Name(labels, offset, false));
      }
      if PointerBits(length) {
        NameEnds(data, offset, labels, rest);
        offset := offset + 2;
        return Good(Name(labels, offset, true));
      }
      ghost var from, had := offset, labels;
      offset := offset + 1;
      labels := labels + [Slice(data, offset, length)];
      offset := offset + length;
      rest := NextLabel(data, from, had, rest, offset, labels);
    }
  }

  lemma NameBreaksOff(data: seq<Byte>, offset: nat, labels: seq<Label>, rest: Parsed)
    requires offset >= |data| && rest == ParseFrom(data, offset)
    ensures Behind(labels, rest) == Truncated
  {}

  lemma NameEnds(data: seq<Byte>, offset: nat, labels: seq<Label>, rest: Parsed)
    requires offset < |data| && (data[offset] == 0 || PointerBits(data[offset])) && rest == ParseFrom(data, offset)
    ensures Behind(labels, rest)
         == Good(if data[offset] == 0 then Name(labels, offset + 1, false) else Name(labels, offset + 2, true))
  {
    assert labels + [] == labels;
  }

  lemma NextLabel(data: seq<Byte>, from: nat, had: seq<Label>, rest: Parsed, offset: nat, labels: seq<Label>)
      returns (later: Parsed)
    requires from < |data| && data[from] != 0 && !PointerBits(data[from]) && rest == ParseFrom(data, from)
    requires offset == from + 1 + data[from] && labels == had + [Slice(data, from + 1, data[from])]
    ensures later == ParseFrom(data, offset) && Behind(labels, later) == Behind(had, rest)
  {
    later := ParseFrom(data, offset);
    BehindBoth(had, [Slice(data, from + 1, data[from])], later);
  }

  /** The label lengths the parser accepts: not the root, not a pointer. */
  predicate ValidLabel(l: Label) {
    1 <= |l| < 0xC0
  }

  predicate ValidLabels(labels: seq<Label>) {
    forall i :: 0 <= i < |labels| ==> ValidLabel(labels[i])
  }

  /** Section 3.1: each label behind its length. */
  function EncodeLabels(labels: seq<Label>): seq<Byte>
    requires ValidLabels(labels)
  {
    if labels == [] then [] else [|labels[0]|] + labels[0] + EncodeLabels(labels[1..])
  }

  function EncodeName(labels: seq<Label>): seq<Byte>
    requires ValidLabels(labels)
  {
    EncodeLabels(labels) + [0]
  }

  lemma ParseOneLabel(data: seq<Byte>, offset: nat, l: Label)
    requires ValidLabel(l) && At(data, offset, [|l|] + l)
    ensures ParseFrom(data, offset) == Behind([l], ParseFrom(data, offset + 1 + |l|))
  {
    AtSplit(data, offset, [|l|], l);
    assert data[offset] == data[offset..offset + 1][0] == |l|;
    assert Slice(data, offset + 1, |l|) == l;
  }

  lemma OneLabelMore(labels: seq<Label>, all: Parsed, later: Parsed, rest: Parsed)
    requires labels != [] && all == Behind([labels[0]], later) && later == Behind(labels[1..], rest)
    ensures all == Behind(labels, rest)
  {
    BehindBoth([labels[0]], labels[1..], rest);
    assert [labels[0]] + labels[1..] == labels;
  }

  /** Labels encoded at an offset are read back, and parsing goes on right behind them. */
  lemma {:induction false} ParseAfterLabels(data: seq<Byte>, offset: nat, labels: seq<Label>, end: nat)
      returns (all: Parsed, rest: Parsed)
    requires ValidLabels(labels) && At(data, offset, EncodeLabels(labels)) && end == offset + |EncodeLabels(labels)|
    ensures all == ParseFrom(data, offset) && rest == ParseFrom(data, end) && all == Behind(labels, rest)
    decreases |labels|
  {
    if labels == [] {
      all, rest := ParseFrom(data, offset), ParseFrom(data, offset);
      BehindNothing(all);
    } else {
      var next, later;
      next, all, later := FirstLabel(data, offset, labels, end);
      later, rest := ParseAfterLabels(data, next, labels[1..], end);
      OneLabelMore(labels, all, later, rest);
    }
  }

  lemma FirstLabel(data: seq<Byte>, offset: nat, labels: seq<Label>, end: nat)
      returns (next: nat, all: Parsed, later: Parsed)
    requires labels != [] && ValidLabels(labels)
    requires At(data, offset, EncodeLabels(labels)) && end == offset + |EncodeLabels(labels)|
    ensures At(data, next, EncodeLabels(labels[1..])) && end == next + |EncodeLabels(labels[1..])|
    ensures all == ParseFrom(data, offset) && later == ParseFrom(data, next) && all == Behind([labels[0]], later)
  {
    next, all, later := LabelThen(data, offset, labels[0], EncodeLabels(labels[1..]));
  }

  lemma LabelThen(data: seq<Byte>, offset: nat, l: Label, more: seq<Byte>)
      returns (next: nat, all: Parsed, later: Parsed)
    requires ValidLabel(l) && At(data, offset, [|l|] + l + more)
    ensures next == offset + 1 + |l| && At(data, next, more)
    ensures all == ParseFrom(data, offset) && later == ParseFrom(data, next) && all == Behind([l], later)
  {
    AtSplit(data, offset, [|l|] + l, more);
    ParseOneLabel(data, offset, l);
    next := offset + 1 + |l|;
    all, later := ParseFrom(data, offset), ParseFrom(data, next);
  }

  /** Parsing undoes encoding: labels, exact end, no pointer, wherever the name sits. */
  lemma EncodeThenParse(data: seq<Byte>, offset: nat, labels: seq<Label>)
    requires ValidLabels(labels) && At(data, offset, EncodeName(labels))
    ensures ParseFrom(data, offset) == Good(Name(labels, offset + |EncodeName(labels)|, false))
  {
    var body := EncodeLabels(labels);
    AtSplit(data, offset, body, [0]);
    var all, rest := ParseAfterLabels(data, offset, labels, offset + |body|);
    EndAtRoot(data, offset + |body|, labels);
  }

  lemma EndAtRoot(data: seq<Byte>, offset: nat, labels: seq<Label>)
    requires At(data, offset, [0])
    ensures Behind(labels, ParseFrom(data, offset)) == Good(Name(labels, offset + 1, false))
  {
    assert data[offset] == data[offset..offset + 1][0] == 0;
    assert labels + [] == labels;
  }

  /** `n` was read from `offset`: the bytes in front of the root or of the pointer are exactly the
      encoding of its labels. */
  ghost predicate ReadFrom(data: seq<Byte>, offset: nat, n: Name) {
    && ValidLabels(n.labels)
    && At(data, offset, EncodeLabels(n.labels))
    && var stop := offset + |EncodeLabels(n.labels)|;
    && stop < |data|
    && (if n.pointer then PointerBits(data[stop]) && n.end == stop + 2
        else data[stop] == 0 && n.end == stop + 1)
  }

  lemma ReadOneMore(data: seq<Byte>, offset: nat, l: Label, rest: Name, all: Name)
    requires ValidLabel(l) && At(data, offset, [|l|] + l) && ReadFrom(data, offset + 1 + |l|, rest)
    requires all == Name([l] + rest.labels, rest.end, rest.pointer)
    ensures ReadFrom(data, offset, all)
  {
    AtSplit(data, offset, [|l|] + l, EncodeLabels(rest.labels));
    assert all.labels[1..] == rest.labels;
    assert EncodeLabels(all.labels) == [|l|] + l + EncodeLabels(rest.labels);
  }

  /** Encoding undoes parsing: every label read was complete and is in its place. */
  lemma {:induction false} ParseThenEncode(data: seq<Byte>, offset: nat) returns (n: Name)
    requires ParseFrom(data, offset).Good?
    ensures ParseFrom(data, offset) == Good(n) && ReadFrom(data, offset, n)
    decreases if offset < |data| then |data| - offset else 0
  {
    if data[offset] == 0 || PointerBits(data[offset]) {
      n := ReadNone(data, offset);
    } else {
      var l, next, rest;
      l, next, rest, n := ReadOne(data, offset);
      rest := ParseThenEncode(data, next);
      ReadOneMore(data, offset, l, rest, n);
    }
  }

  lemma ReadNone(data: seq<Byte>, offset: nat) returns (n: Name)
    requires offset < |data| && (data[offset] == 0 || PointerBits(data[offset]))
    ensures ParseFrom(data, offset) == Good(n) && ReadFrom(data, offset, n)
  {
    n := ParseFrom(data, offset).name;
  }

  lemma ReadOne(data: seq<Byte>, offset: nat) returns (l: Label, next: nat, rest: Name, all: Name)
    requires offset < |data| && data[offset] != 0 && !PointerBits(data[offset]) && ParseFrom(data, offset).Good?
    ensures ValidLabel(l) && At(data, offset, [|l|] + l) && next == offset + 1 + |l| <= |data|
    ensures ParseFrom(data, next) == Good(rest) && ParseFrom(data, offset) == Good(all)
    ensures all == Name([l] + rest.labels, rest.end, rest.pointer)
  {
    var length := data[offset];
    next := offset + 1 + length;
    assert ParseFrom(data, next).Good? && next < |data|;
    rest, all := ParseFrom(data, next).name, ParseFrom(data, offset).name;
    l := data[offset + 1..next];
    assert data[offset..next] == [length] + l;
  }

  /** So a name without pointer is accepted exactly when an encoded label list starts there, and
      everything else, such as a label running over the end, is either a pointer or an error. */
  lemma AcceptedExactly(data: seq<Byte>, offset: nat, labels: seq<Label>, end: nat)
    ensures ParseFrom(data, offset) == Good(Name(labels, end, false))
       <==> ValidLabels(labels) && At(data, offset, EncodeName(labels)) && end == offset + |EncodeName(labels)|
  {
    if ParseFrom(data, offset) == Good(Name(labels, end, false)) {
      var n := ParseThenEncode(data, offset);
      RootIsEncoded(data, offset, labels, end);
    } else if ValidLabels(labels) && At(data, offset, EncodeName(labels)) {
      EncodeThenParse(data, offset, labels);
    }
  }

  lemma RootIsEncoded(data: seq<Byte>, offset: nat, labels: seq<Label>, end: nat)
    requires ReadFrom(data, offset, Name(labels, end, false))
    ensures At(data, offset, EncodeName(labels)) && end == offset + |EncodeName(labels)|
  {
    AtSplit(data, offset, EncodeLabels(labels), [0]);
  }

  lemma OverrunIsTruncated(data: seq<Byte>, offset: nat, labels: seq<Label>)
    requires ValidLabels(labels) && At(data, offset, EncodeLabels(labels))
    requires var last := offset + |EncodeLabels(labels)|;
             last < |data| ==> 0 < data[last] < 0xC0 && last + 1 + data[last] >= |data|
    ensures ParseFrom(data, offset) == Truncated
  {
    var last := offset + |EncodeLabels(labels)|;
    var all, rest := ParseAfterLabels(data, offset, labels, last);
    if last < |data| {
      assert ParseFrom(data, last + 1 + data[last]) == Truncated;
    }
  }

  // ---- answering

  const FLAGS := 0x8180
  const TYPE_A := 1
  const CLASS_IN := 1
  const TTL := 60
  const QUESTION_AT := 12

  /** Two octets, high one first. */
  function U16(n: nat): (b: seq<Byte>)
    requires n < 0x1_0000
    ensures |b| == 2
  {
    [n / 256, n % 256]
  }

  function U32(n: nat): (b: seq<Byte>)
    requires n < 0x1_0000_0000
    ensures |b| == 4
  {
    U16(n / 0x1_0000) + U16(n % 0x1_0000)
  }

  function ReadU16(data: seq<Byte>, offset: nat): (n: nat)
    requires offset + 2 <= |data|
    ensures n < 0x1_0000
  {
    data[offset] as int * 256 + data[offset + 1] as int
  }

  function ReadU32(data: seq<Byte>, offset: nat): nat
    requires offset + 4 <= |data|
  {
    ReadU16(data, offset) * 0x1_0000 + ReadU16(data, offset + 2)
  }

  function AnswerRecord(qtype: nat, sink: seq<Byte>): seq<Byte>
    requires qtype < 0x1_0000 && |sink| < 0x1_0000
  {
    [0xC0, QUESTION_AT] + U16(qtype) + U16(CLASS_IN) + U32(TTL) + U16(|sink|) + sink
  }

  function BuildResponse(query: seq<Byte>, qnameEnd: nat, qtype: nat, sink: seq<Byte>): seq<Byte>
    requires qtype < 0x1_0000 && |sink| == 4
  {
    var txid := Slice(query, 0, 2);
    var question := if qnameEnd < QUESTION_AT then [] else Slice(query, QUESTION_AT, qnameEnd - QUESTION_AT);
    var ancount := if qtype == TYPE_A then 1 else 0;
    var header := txid + U16(FLAGS) + U16(1) + U16(ancount) + U16(0) + U16(0);
    header + question + if qtype == TYPE_A then AnswerRecord(qtype, sink) else []
  }

  datatype LogEntry = DnsQuery(labels: seq<Label>, qtype: nat) | DnsFailure

  class Fakenet {
    const sink: seq<Byte>
    var log: seq<LogEntry>

    constructor (sinkIp: seq<Byte>)
      requires |sinkIp| == 4
      ensures sink == sinkIp && log == []
    {
      sink, log := sinkIp, [];
    }

    /** Answers a datagram with a readable question and logs the query; logs an error otherwise.
        `sends` says whether the socket takes the reply: if not, an error is logged as well. */
    method Handle(data: seq<Byte>, sends: bool) returns (reply: Option<seq<Byte>>)
      requires |sink| == 4
      modifies this
      ensures var parsed := ParseFrom(data, QUESTION_AT);
              if parsed.Good? && parsed.name.end + 2 <= |data| then
                var qtype := ReadU16(data, parsed.name.end);
                && log == old(log) + [DnsQuery(parsed.name.labels, qtype)] + (if sends then [] else [DnsFailure])
                && reply == if sends then Some(BuildResponse(data, parsed.name.end + 4, qtype, sink)) else None
              else
                log == old(log) + [DnsFailure] && reply == None
    {
      var parsed := ParseQname(data, QUESTION_AT);
      if parsed.Truncated? || parsed.name.end + 2 > |data| {
        log := log + [DnsFailure];
        return None;
      }
      var end := parsed.name.end;
      var qtype := ReadU16(data, end);
      log := log + [DnsQuery(parsed.name.labels, qtype)];
      if !sends {
        log := log + [DnsFailure];
        return None;
      }
      reply := Some(BuildResponse(data, end + 4, qtype, sink));
    }
  }

  // ---- a resolver reads the answer

  datatype Question = Question(name: seq<Label>, qtype: nat, qclass: nat)
  datatype Record = Record(name: seq<Label>, rtype: nat, rclass: nat, ttl: nat, rdata: seq<Byte>)
  datatype Message = Message(id: nat, flags: nat, questions: seq<Question>, answers: seq<Record>,
                             authority: seq<Record>, additional: seq<Record>)

  /** Section 4.1.4: labels of up to 63 octets, then the root or a pointer to a prior place.
      `start` is where the current run of labels began; a pointer must lead before it. */
  function ReadName(data: seq<Byte>, start: nat, offset: nat): Option<(seq<Label>, nat)>
    decreases start, if offset < |data| then |data| - offset else 0
  {
    if offset >= |data| then None
    else
      var length := data[offset];
      if length == 0 then Some(([], offset + 1))
      else if length >= 0xC0 then
        if offset + 2 > |data| then None
        else
          var target := (length as int - 0xC0) * 256 + data[offset + 1] as int;
          if target >= start then None
          else
            match ReadName(data, target, target)
            case None => None
            case Some((labels, _)) => Some((labels, offset + 2))
      else if length > 63 || offset + 1 + length > |data| then None
      else
        match ReadName(data, start, offset + 1 + length)
        case None => None
        case Some((labels, end)) => Some(([data[offset + 1..offset + 1 + length]] + labels, end))
  }

  function ReadQuestions(data: seq<Byte>, offset: nat, n: nat): Option<(seq<Question>, nat)>
    decreases n
  {
    if n == 0 then Some(([], offset))
    else
      match ReadName(data, offset, offset)
      case None => None
      case Some((name, end)) =>
        if end + 4 > |data| then None
        else
          match ReadQuestions(data, end + 4, n - 1)
          case None => None
          case Some((rest, stop)) => Some(([Question(name, ReadU16(data, end), ReadU16(data, end + 2))] + rest, stop))
  }

  function ReadRecords(data: seq<Byte>, offset: nat, n: nat): Option<(seq<Record>, nat)>
    decreases n
  {
    if n == 0 then Some(([], offset))
    else
      match ReadName(data, offset, offset)
      case None => None
      case Some((name, end)) =>
        if end + 10 > |data| || end + 10 + ReadU16(data, end + 8) > |data| then None
        else
          var stop := end + 10 + ReadU16(data, end + 8);
          match ReadRecords(data, stop, n - 1)
          case None => None
          case Some((rest, last)) =>
            Some(([Record(name, ReadU16(data, end), ReadU16(data, end + 2), ReadU32(data, end + 4),
                          data[end + 10..stop])] + rest, last))
  }

  /** Section 4.1: header and the four counted sections, with nothing behind them. */
  function ReadMessage(data: seq<Byte>): Option<Message> {
    if |data| < QUESTION_AT then None
    else
      match ReadQuestions(data, QUESTION_AT, ReadU16(data, 4))
      case None => None
      case Some((questions, e1)) =>
        match ReadRecords(data, e1, ReadU16(data, 6))
        case None => None
        case Some((answers, e2)) =>
          match ReadRecords(data, e2, ReadU16(data, 8))
          case None => None
          case Some((authority, e3)) =>
            match ReadRecords(data, e3, ReadU16(data, 10))
            case None => None
            case Some((additional, e4)) =>
              if e4 != |data| then None
              else Some(Message(ReadU16(data, 0), ReadU16(data, 2), questions, answers, authority, additional))
  }

  /** What section 3.1 allows as a label. */
  predicate ShortLabels(labels: seq<Label>) {
    forall i :: 0 <= i < |labels| ==> |labels[i]| <= 63
  }

  lemma ReadOneLabel(data: seq<Byte>, start: nat, offset: nat, l: Label)
    requires ValidLabel(l) && At(data, offset, [|l|] + l)
    ensures ReadName(data, start, offset) ==
              if |l| > 63 then None else
                match ReadName(data, start, offset + 1 + |l|)
                case None => None
                case Some((labels, end)) => Some(([l] + labels, end))
  {
    AtSplit(data, offset, [|l|], l);
    assert data[offset] == data[offset..offset + 1][0] == |l|;
  }

  /** Where the two octets at `offset` point, if they are a pointer. */
  function PointerTarget(data: seq<Byte>, offset: nat): int
    requires offset + 2 <= |data|
  {
    ReadU16(data, offset) - 0xC000
  }

  /** The name that `n`, read from `start`, stands for in `data`: its labels, if they are short
      enough, and what its pointer leads to, if it has one and that is a prior place. */
  function Resolved(data: seq<Byte>, start: nat, n: Name): Option<seq<Label>>
    requires n.pointer ==> 2 <= n.end <= |data|
  {
    if !ShortLabels(n.labels) then None
    else if !n.pointer then Some(n.labels)
    else
      var target := PointerTarget(data, n.end - 2);
      if !(0 <= target < start) then None
      else
        match ReadName(data, target, target)
        case None => None
        case Some((more, _)) => Some(n.labels + more)
  }

  /** What a reader returns for a name: what it stands for, and where it ends. */
  function Reading(resolved: Option<seq<Label>>, end: nat): Option<(seq<Label>, nat)> {
    match resolved
    case None => None
    case Some(name) => Some((name, end))
  }

  /** A pointer-following reader accepts exactly the names that stand for something. */
  lemma {:induction false} ReadsAsResolved(data: seq<Byte>, start: nat, offset: nat, n: Name)
    requires ReadFrom(data, offset, n) && n.end <= |data|
    ensures ReadName(data, start, offset) == Reading(Resolved(data, start, n), n.end)
    decreases |n.labels|
  {
    if n.labels == [] {
      ReadsEnd(data, start, offset, n);
    } else {
      var l, more := DropLabel(data, offset, n);
      ReadsAsResolved(data, start, offset + 1 + |l|, more);
      ReadsMore(data, start, offset, l, more);
    }
  }

  /** Without its first label, the name is read from behind that label. */
  lemma DropLabel(data: seq<Byte>, offset: nat, n: Name) returns (l: Label, more: Name)
    requires ReadFrom(data, offset, n) && n.labels != []
    ensures n == Name([l] + more.labels, more.end, more.pointer) && |more.labels| < |n.labels|
    ensures ValidLabel(l) && At(data, offset, [|l|] + l) && ReadFrom(data, offset + 1 + |l|, more)
  {
    l, more := n.labels[0], n.(labels := n.labels[1..]);
    AtSplit(data, offset, [|l|] + l, EncodeLabels(more.labels));
    assert n.labels == [l] + more.labels;
  }

  lemma ReadsMore(data: seq<Byte>, start: nat, offset: nat, l: Label, more: Name)
    requires ValidLabel(l) && At(data, offset, [|l|] + l) && more.end <= |data| && (more.pointer ==> 2 <= more.end)
    requires ReadName(data, start, offset + 1 + |l|) == Reading(Resolved(data, start, more), more.end)
    ensures ReadName(data, start, offset)
         == Reading(Resolved(data, start, Name([l] + more.labels, more.end, more.pointer)), more.end)
  {
    ReadOneLabel(data, start, offset, l);
    ResolvedMore(data, start, l, more);
  }

  lemma ReadsEnd(data: seq<Byte>, start: nat, offset: nat, n: Name)
    requires ReadFrom(data, offset, n) && n.end <= |data| && n.labels == []
    ensures ReadName(data, start, offset) == Reading(Resolved(data, start, n), n.end)
  {
    if n.pointer {
      var target := PointerTarget(data, offset);
      if 0 <= target < start && ReadName(data, target, target).Some? {
        assert [] + ReadName(data, target, target).value.0 == ReadName(data, target, target).value.0;
      }
    }
  }

  lemma ResolvedMore(data: seq<Byte>, start: nat, l: Label, n: Name)
    requires n.pointer ==> 2 <= n.end <= |data|
    ensures Resolved(data, start, Name([l] + n.labels, n.end, n.pointer)) ==
              if |l| > 63 then None else
                match Resolved(data, start, n)
                case None => None
                case Some(rest) => Some([l] + rest)
  {
    ShortLabelsCons(l, n.labels);
    if n.pointer {
      var target := PointerTarget(data, n.end - 2);
      if 0 <= target < start && ReadName(data, target, target).Some? {
        ConcatAssociates([l], n.labels, ReadName(data, target, target).value.0);
      }
    }
  }

  lemma ShortLabelsCons(l: Label, labels: seq<Label>)
    ensures ShortLabels([l] + labels) <==> |l| <= 63 && ShortLabels(labels)
  {
    assert ([l] + labels)[1..] == labels;
    if ShortLabels([l] + labels) {
      assert |([l] + labels)[0]| <= 63;
      assert forall i :: 0 <= i < |labels| ==> labels[i] == ([l] + labels)[i + 1];
    }
  }

  /** The response, piece by piece. */
  lemma ResponseLayout(query: seq<Byte>, end: nat, qtype: nat, sink: seq<Byte>)
    requires QUESTION_AT <= end && end + 4 <= |query| && qtype < 0x1_0000 && |sink| == 4
    ensures var r := BuildResponse(query, end + 4, qtype, sink);
            && |r| == end + 4 + (if qtype == TYPE_A then 16 else 0)
            && r[0..2] == query[0..2] && ReadU16(r, 2) == FLAGS
            && ReadU16(r, 4) == 1 && ReadU16(r, 6) == (if qtype == TYPE_A then 1 else 0)
            && ReadU16(r, 8) == 0 && ReadU16(r, 10) == 0
            && r[QUESTION_AT..end + 4] == query[QUESTION_AT..end + 4]
            && (qtype == TYPE_A ==> r[end + 4..] == AnswerRecord(qtype, sink))
  {
    var ancount := if qtype == TYPE_A then 1 else 0;
    var r := Assembled(query[0..2], ancount, query[QUESTION_AT..end + 4],
                       if qtype == TYPE_A then AnswerRecord(qtype, sink) else []);
    assert r == BuildResponse(query, end + 4, qtype, sink);
  }

  /** A header with the question and the records behind it. */
  lemma Assembled(txid: seq<Byte>, ancount: nat, question: seq<Byte>, tail: seq<Byte>) returns (r: seq<Byte>)
    requires |txid| == 2 && ancount <= 1
    ensures r == Header(txid, ancount) + question + tail && |r| == QUESTION_AT + |question| + |tail|
    ensures r[0..2] == txid && ReadU16(r, 2) == FLAGS && ReadU16(r, 4) == 1 && ReadU16(r, 6) == ancount
    ensures ReadU16(r, 8) == 0 && ReadU16(r, 10) == 0
    ensures r[QUESTION_AT..QUESTION_AT + |question|] == question && r[QUESTION_AT + |question|..] == tail
  {
    r := Header(txid, ancount) + question + tail;
    HeaderFields(txid, ancount);
    ThreeParts(Header(txid, ancount), question, tail);
    assert forall k :: 0 <= k < 12 ==> r[k] == r[..12][k];
  }

  function Header(txid: seq<Byte>, ancount: nat): seq<Byte>
    requires |txid| == 2 && ancount < 0x1_0000
  {
    txid + U16(FLAGS) + U16(1) + U16(ancount) + U16(0) + U16(0)
  }

  lemma HeaderFields(txid: seq<Byte>, ancount: nat)
    requires |txid| == 2 && ancount <= 1
    ensures var h := Header(txid, ancount);
            && |h| == 12 && h[0..2] == txid
            && h[2] == 0x81 && h[3] == 0x80 && h[4] == 0 && h[5] == 1 && h[6] == 0 && h[7] == ancount
            && h[8] == 0 && h[9] == 0 && h[10] == 0 && h[11] == 0
  {}

  lemma ThreeParts(a: seq<Byte>, b: seq<Byte>, c: seq<Byte>)
    ensures var s := a + b + c;
            s[..|a|] == a && s[|a|..|a| + |b|] == b && s[|a| + |b|..] == c && (|a| >= 2 ==> s[0..2] == a[0..2])
  {}

  /** For every query with a complete question, what a reader makes of the response: one message
      with the same id and the question the echoed name stands for, and for type A one record whose
      pointer leads to that name.  The condition is exact: nothing at all, if the echoed name stands for
      nothing, because of a label of 64 to 191 octets, which the parser lets through, or because
      of a pointer that does not lead to a readable name in front of the question. */
  lemma ResponseIsReadable(query: seq<Byte>, n: Name, sink: seq<Byte>) returns (r: seq<Byte>)
    requires ParseFrom(query, QUESTION_AT) == Good(n) && n.end + 4 <= |query| && |sink| == 4
    ensures r == BuildResponse(query, n.end + 4, ReadU16(query, n.end), sink)
    ensures QUESTION_AT < n.end <= |r| && (n.pointer ==> QUESTION_AT + 2 <= n.end)
    ensures ReadMessage(r) == Received(query, n.end, Resolved(r, QUESTION_AT, n), sink)
  {
    r := Echo(query, n, sink);
    MessageReceived(query, r, n.end, Resolved(r, QUESTION_AT, n), sink);
  }

  lemma MessageReceived(query: seq<Byte>, r: seq<Byte>, end: nat, resolved: Option<seq<Label>>, sink: seq<Byte>)
    requires QUESTION_AT < end && end + 4 <= |query| && end + 4 <= |r| && |sink| == 4
    requires HeaderSays(r, ReadU16(query, 0), ReadU16(query, end), end)
    requires ReadU16(r, end) == ReadU16(query, end) && ReadU16(r, end + 2) == ReadU16(query, end + 2)
    requires ReadU16(query, end) == TYPE_A ==> r[end + 4..] == AnswerRecord(TYPE_A, sink)
    requires ReadName(r, QUESTION_AT, QUESTION_AT) == Reading(resolved, end)
    ensures ReadMessage(r) == Received(query, end, resolved, sink)
  {
    match resolved
    case None => NoQuestion(r);
    case Some(name) => EchoIsRead(r, name, end, ReadU16(query, end), sink);
  }

  /** The message a reader gets from the response to a query whose question name ends at `end`, when
      it reads the echoed name as `resolved`. */
  function Received(query: seq<Byte>, end: nat, resolved: Option<seq<Label>>, sink: seq<Byte>): Option<Message>
    requires end + 4 <= |query|
  {
    match resolved
    case None => None
    case Some(name) =>
      var qtype := ReadU16(query, end);
      Some(Message(ReadU16(query, 0), FLAGS, [Question(name, qtype, ReadU16(query, end + 2))],
                   if qtype == TYPE_A then [Record(name, TYPE_A, CLASS_IN, TTL, sink)] else [], [], []))
  }

  /** Without a pointer the question comes back as it was asked, unless a label is too long. */
  lemma PlainResponseIsReadable(query: seq<Byte>, labels: seq<Label>, end: nat, sink: seq<Byte>)
      returns (r: seq<Byte>)
    requires ParseFrom(query, QUESTION_AT) == Good(Name(labels, end, false)) && end + 4 <= |query| && |sink| == 4
    ensures r == BuildResponse(query, end + 4, ReadU16(query, end), sink)
    ensures ReadMessage(r) == Received(query, end, if ShortLabels(labels) then Some(labels) else None, sink)
  {
    r := ResponseIsReadable(query, Name(labels, end, false), sink);
  }

  /** With one, it is readable exactly when the labels are short and the pointer leads into the
      header, to something readable there; the question is then the labels followed by that. */
  lemma PointedResponseIsReadable(query: seq<Byte>, labels: seq<Label>, end: nat, target: nat, sink: seq<Byte>)
      returns (r: seq<Byte>)
    requires ParseFrom(query, QUESTION_AT) == Good(Name(labels, end, true)) && end + 4 <= |query| && |sink| == 4
    requires 2 <= end && PointerTarget(query, end - 2) == target
    ensures r == BuildResponse(query, end + 4, ReadU16(query, end), sink)
    ensures ReadMessage(r).Some? <==> ShortLabels(labels) && target < QUESTION_AT && ReadName(r, target, target).Some?
    ensures ReadMessage(r).Some? ==>
              ReadMessage(r) == Received(query, end, Some(labels + ReadName(r, target, target).value.0), sink)
    ensures target >= 2 ==> (ReadMessage(r).Some? <==> ShortLabels(labels) && 4 <= target < QUESTION_AT)
  {
    var resolved;
    r, resolved := PointedName(query, labels, end, target, sink);
    HeaderTargets(query, Name(labels, end, true), sink, r, target);
  }

  lemma PointedName(query: seq<Byte>, labels: seq<Label>, end: nat, target: nat, sink: seq<Byte>)
      returns (r: seq<Byte>, resolved: Option<seq<Label>>)
    requires ParseFrom(query, QUESTION_AT) == Good(Name(labels, end, true)) && end + 4 <= |query| && |sink| == 4
    requires 2 <= end && PointerTarget(query, end - 2) == target
    ensures r == BuildResponse(query, end + 4, ReadU16(query, end), sink)
    ensures ReadMessage(r) == Received(query, end, resolved, sink)
    ensures resolved == if ShortLabels(labels) && target < QUESTION_AT && ReadName(r, target, target).Some?
                        then Some(labels + ReadName(r, target, target).value.0) else None
  {
    r := ResponseIsReadable(query, Name(labels, end, true), sink);
    resolved := Resolved(r, QUESTION_AT, Name(labels, end, true));
    ResponseLayout(query, end, ReadU16(query, end), sink);
    SameU16(r, query, QUESTION_AT, end + 4, end - 2);
    ResolvedPointer(r, labels, end, target);
  }

  lemma HeaderTargets(query: seq<Byte>, n: Name, sink: seq<Byte>, r: seq<Byte>, target: nat)
    requires ParseFrom(query, QUESTION_AT) == Good(n) && n.end + 4 <= |query| && |sink| == 4
    requires r == BuildResponse(query, n.end + 4, ReadU16(query, n.end), sink)
    ensures 2 <= target < QUESTION_AT ==> (ReadName(r, target, target).Some? <==> 4 <= target)
  {
    if 2 <= target < QUESTION_AT {
      var echo := Echo(query, n, sink);
      HeaderNames(r, ReadU16(query, n.end), n.end, target);
    }
  }

  lemma ResolvedPointer(r: seq<Byte>, labels: seq<Label>, end: nat, target: nat)
    requires 2 <= end <= |r| && PointerTarget(r, end - 2) == target
    ensures Resolved(r, QUESTION_AT, Name(labels, end, true)) ==
              if ShortLabels(labels) && target < QUESTION_AT && ReadName(r, target, target).Some?
              then Some(labels + ReadName(r, target, target).value.0) else None
  {}

  /** What the response shares with the query, and how its name reads. */
  lemma Echo(query: seq<Byte>, n: Name, sink: seq<Byte>) returns (r: seq<Byte>)
    requires ParseFrom(query, QUESTION_AT) == Good(n) && n.end + 4 <= |query| && |sink| == 4
    ensures r == BuildResponse(query, n.end + 4, ReadU16(query, n.end), sink)
    ensures QUESTION_AT < n.end <= |r| && (n.pointer ==> QUESTION_AT + 2 <= n.end)
    ensures HeaderSays(r, ReadU16(query, 0), ReadU16(query, n.end), n.end)
    ensures ReadU16(r, n.end) == ReadU16(query, n.end) && ReadU16(r, n.end + 2) == ReadU16(query, n.end + 2)
    ensures ReadU16(query, n.end) == TYPE_A ==> r[n.end + 4..] == AnswerRecord(TYPE_A, sink)
    ensures ReadName(r, QUESTION_AT, QUESTION_AT) == Reading(Resolved(r, QUESTION_AT, n), n.end)
  {
    var n' := ParseThenEncode(query, QUESTION_AT);
    r := BuildResponse(query, n.end + 4, ReadU16(query, n.end), sink);
    ResponseLayout(query, n.end, ReadU16(query, n.end), sink);
    EchoReads(query, r, n);
    SameU16(r, query, 0, 2, 0);
  }

  lemma EchoReads(query: seq<Byte>, r: seq<Byte>, n: Name)
    requires ReadFrom(query, QUESTION_AT, n) && n.end + 4 <= |query| && n.end + 4 <= |r|
    requires r[QUESTION_AT..n.end + 4] == query[QUESTION_AT..n.end + 4]
    ensures ReadU16(r, n.end) == ReadU16(query, n.end) && ReadU16(r, n.end + 2) == ReadU16(query, n.end + 2)
    ensures ReadName(r, QUESTION_AT, QUESTION_AT) == Reading(Resolved(r, QUESTION_AT, n), n.end)
  {
    NameIsEchoed(query, r, n, n.end + 4);
    ReadsAsResolved(r, QUESTION_AT, QUESTION_AT, n);
    SameU16(r, query, QUESTION_AT, n.end + 4, n.end);
    SameU16(r, query, QUESTION_AT, n.end + 4, n.end + 2);
  }

  predicate HeaderSays(r: seq<Byte>, id: nat, qtype: nat, end: nat) {
    var answers := if qtype == TYPE_A then 1 else 0;
    && |r| == end + 4 + 16 * answers && |r| >= QUESTION_AT
    && ReadU16(r, 0) == id && ReadU16(r, 2) == FLAGS && ReadU16(r, 4) == 1
    && ReadU16(r, 6) == answers && ReadU16(r, 8) == 0 && ReadU16(r, 10) == 0
  }

  lemma EchoIsRead(r: seq<Byte>, labels: seq<Label>, end: nat, qtype: nat, sink: seq<Byte>)
    requires QUESTION_AT < end && |sink| == 4 && end + 4 <= |r|
    requires HeaderSays(r, ReadU16(r, 0), qtype, end) && ReadU16(r, end) == qtype
    requires qtype == TYPE_A ==> r[end + 4..] == AnswerRecord(TYPE_A, sink)
    requires ReadName(r, QUESTION_AT, QUESTION_AT) == Some((labels, end))
    ensures ReadMessage(r) ==
              Some(Message(ReadU16(r, 0), FLAGS, [Question(labels, qtype, ReadU16(r, end + 2))],
                           if qtype == TYPE_A then [Record(labels, TYPE_A, CLASS_IN, TTL, sink)] else [], [], []))
  {
    OneQuestion(r, labels, end);
    var questions := [Question(labels, qtype, ReadU16(r, end + 2))];
    if qtype == TYPE_A {
      AnswerIsRead(r, labels, end, sink);
      WholeMessage(r, questions, end + 4, [Record(labels, TYPE_A, CLASS_IN, TTL, sink)]);
    } else {
      WholeMessage(r, questions, end + 4, []);
    }
  }

  lemma NameIsEchoed(query: seq<Byte>, r: seq<Byte>, n: Name, end: nat)
    requires ReadFrom(query, QUESTION_AT, n) && n.end <= end <= |query| && end <= |r|
    requires r[QUESTION_AT..end] == query[QUESTION_AT..end]
    ensures ReadFrom(r, QUESTION_AT, n)
  {
    SameAt(query, r, QUESTION_AT, end, EncodeLabels(n.labels));
    var stop := QUESTION_AT + |EncodeLabels(n.labels)|;
    assert r[stop] == r[QUESTION_AT..end][stop - QUESTION_AT] == query[stop];
  }

  lemma SameAt(a: seq<Byte>, b: seq<Byte>, from: nat, to: nat, code: seq<Byte>)
    requires from + |code| <= to <= |a| && to <= |b| && a[from..to] == b[from..to] && At(a, from, code)
    ensures At(b, from, code)
  {
    assert a[from..from + |code|] == a[from..to][..|code|];
    assert b[from..from + |code|] == b[from..to][..|code|];
  }

  /** The names in the header of a response, which a pointer into it can lead to.  The first two
      octets are the asker's; of the others, the flags cannot be read as a name, and the rest reads as
      the root or as labels made of zero octets. */
  lemma HeaderNames(r: seq<Byte>, qtype: nat, end: nat, target: nat)
    requires end + 4 <= |r| && |r| >= QUESTION_AT && HeaderSays(r, ReadU16(r, 0), qtype, end)
    requires 2 <= target < QUESTION_AT
    ensures ReadName(r, target, target) ==
              if target <= 3 then None
              else if target == 5 then
                if qtype == TYPE_A then Some(([[0], [0]], 10)) else Some(([[0]], 8))
              else if target == 7 && qtype == TYPE_A then Some(([[0]], 10))
              else Some(([], target + 1))
  {
    HeaderOctets(r, qtype, end);
    var zero: Label := [0];
    assert r[6..7] == zero && r[8..9] == zero && [zero] + [] == [zero] && [zero] + [zero] == [zero, zero];
    if target == 5 {
      if qtype == TYPE_A {
        assert ReadName(r, 5, 9) == Some(([], 10));
        assert ReadName(r, 5, 7) == Some(([zero], 10));
      } else {
        assert ReadName(r, 5, 7) == Some(([], 8));
      }
    } else if target == 7 && qtype == TYPE_A {
      assert ReadName(r, 7, 9) == Some(([], 10));
    }
  }

  lemma HeaderOctets(r: seq<Byte>, qtype: nat, end: nat)
    requires |r| >= QUESTION_AT && HeaderSays(r, ReadU16(r, 0), qtype, end)
    ensures r[2] == 0x81 && r[3] == 0x80 && r[4] == 0 && r[5] == 1 && r[6] == 0
    ensures r[7] == (if qtype == TYPE_A then 1 else 0)
    ensures r[8] == 0 && r[9] == 0 && r[10] == 0 && r[11] == 0
  {}

  // ---- a question that breaks off in its class

  lemma CutLayout(query: seq<Byte>, end: nat, qtype: nat, sink: seq<Byte>) returns (r: seq<Byte>)
    requires QUESTION_AT <= end && end + 2 <= |query| < end + 4 && qtype < 0x1_0000 && |sink| == 4
    ensures r == BuildResponse(query, end + 4, qtype, sink)
    ensures |r| == |query| + (if qtype == TYPE_A then 16 else 0)
    ensures ReadU16(r, 4) == 1 && ReadU16(r, 6) == (if qtype == TYPE_A then 1 else 0)
    ensures r[QUESTION_AT..|query|] == query[QUESTION_AT..|query|]
    ensures qtype == TYPE_A ==> r[|query|..] == AnswerRecord(qtype, sink)
  {
    var ancount := if qtype == TYPE_A then 1 else 0;
    r := Assembled(query[0..2], ancount, query[QUESTION_AT..],
                   if qtype == TYPE_A then AnswerRecord(qtype, sink) else []);
    assert r == BuildResponse(query, end + 4, qtype, sink);
    assert query[QUESTION_AT..] == query[QUESTION_AT..|query|];
  }

  lemma {:induction false} NameGoesOn(data: seq<Byte>, start: nat, offset: nat)
    ensures ReadName(data, start, offset).Some? ==> offset < ReadName(data, start, offset).value.1
    decreases start, if offset < |data| then |data| - offset else 0
  {
    if offset < |data| && 0 < data[offset] < 0xC0 {
      NameGoesOn(data, start, offset + 1 + data[offset]);
    }
  }

  /** The reader takes the class partly from the answer record, and then finds no record. */
  lemma NoRecordBehindCut(r: seq<Byte>, at: nat, cut: nat, sink: seq<Byte>)
    requires |sink| == 4 && 1 <= cut <= 2 && cut <= at && at - cut + 16 == |r|
    requires r[at - cut..] == AnswerRecord(TYPE_A, sink)
    ensures ReadRecords(r, at, 1) == None
  {
    AnswerOctets(sink);
    var a := r[at - cut..];
    assert forall k :: 0 <= k < 16 ==> r[at - cut + k] == a[k];
    if cut == 2 {
      assert r[at] == a[2] == 0;
      assert ReadName(r, at, at) == Some(([], at + 1));
      assert r[at + 9] == a[11] == 4;
      assert ReadU16(r, at + 9) >= 1024;
    } else {
      assert r[at] == a[1] == 12;
      NameGoesOn(r, at, at + 13);
    }
  }

  /** A question whose class is incomplete is answered as well, and never readably: so of all queries
      that get an answer it is now decided whether a reader can use it. */
  lemma CutQuestionIsUnreadable(query: seq<Byte>, n: Name, sink: seq<Byte>) returns (r: seq<Byte>)
    requires ParseFrom(query, QUESTION_AT) == Good(n) && n.end + 2 <= |query| < n.end + 4 && |sink| == 4
    ensures r == BuildResponse(query, n.end + 4, ReadU16(query, n.end), sink)
    ensures ReadMessage(r) == None
  {
    var n' := ParseThenEncode(query, QUESTION_AT);
    r := CutLayout(query, n.end, ReadU16(query, n.end), sink);
    NameIsEchoed(query, r, n, |query|);
    ReadsAsResolved(r, QUESTION_AT, QUESTION_AT, n);
    NothingReceived(r, |query|, n.end, Resolved(r, QUESTION_AT, n), ReadU16(query, n.end), sink);
  }

  lemma NothingReceived(r: seq<Byte>, length: nat, end: nat, resolved: Option<seq<Label>>, qtype: nat, sink: seq<Byte>)
    requires QUESTION_AT <= end && end + 2 <= length < end + 4 && |sink| == 4
    requires |r| == length + (if qtype == TYPE_A then 16 else 0)
    requires ReadU16(r, 4) == 1 && ReadU16(r, 6) == (if qtype == TYPE_A then 1 else 0)
    requires qtype == TYPE_A ==> r[length..] == AnswerRecord(TYPE_A, sink)
    requires ReadName(r, QUESTION_AT, QUESTION_AT) == Reading(resolved, end)
    ensures ReadMessage(r) == None
  {
    match resolved
    case None => NoQuestion(r);
    case Some(name) =>
      if qtype == TYPE_A {
        OneQuestion(r, name, end);
        NoRecordBehindCut(r, end + 4, end + 4 - length, sink);
        NoAnswers(r, end + 4);
      } else {
        NoClass(r, name, end);
      }
  }

  lemma NoAnswers(r: seq<Byte>, e1: nat)
    requires |r| >= QUESTION_AT && ReadU16(r, 4) == 1 && ReadU16(r, 6) == 1
    requires ReadQuestions(r, QUESTION_AT, 1).Some? && ReadQuestions(r, QUESTION_AT, 1).value.1 == e1
    requires ReadRecords(r, e1, 1) == None
    ensures ReadMessage(r) == None
  {}

  lemma NoClass(r: seq<Byte>, name: seq<Label>, end: nat)
    requires |r| >= QUESTION_AT && ReadU16(r, 4) == 1 && |r| < end + 4
    requires ReadName(r, QUESTION_AT, QUESTION_AT) == Some((name, end))
    ensures ReadMessage(r) == None
  {
    assert ReadQuestions(r, QUESTION_AT, 1) == None;
  }

  // ---- it happens

  const NO_HEADER: seq<Byte> := [0, 0, 0, 0, 0, 0, 0, 0, 0, 0, 0, 0]

  /** A question with a label of 64 octets: answered, and the answer is unreadable. */
  lemma LongLabelIsUnreadable(sink: seq<Byte>) returns (query: seq<Byte>, n: Name)
    requires |sink| == 4
    ensures ParseFrom(query, QUESTION_AT) == Good(n) && !n.pointer && n.end + 4 == |query|
    ensures ReadMessage(BuildResponse(query, n.end + 4, ReadU16(query, n.end), sink)) == None
  {
    var l: Label := seq(64, _ => 97);
    var code, rest := EncodeName([l]), [0, 1, 0, 1];
    query := NO_HEADER + (code + rest);
    assert query[QUESTION_AT..QUESTION_AT + |code|] == code;
    assert EncodeLabels([l][1..]) == [];
    assert |EncodeLabels([l])| == 65;
    EncodeThenParse(query, QUESTION_AT, [l]);
    n := Name([l], QUESTION_AT + |code|, false);
    var r := ResponseIsReadable(query, n, sink);
    assert !ShortLabels(n.labels) by { assert |n.labels[0]| == 64; }
  }

  /** A question that points to itself: likewise. */
  lemma PointerToItselfIsUnreadable(sink: seq<Byte>) returns (query: seq<Byte>, n: Name)
    requires |sink| == 4
    ensures ParseFrom(query, QUESTION_AT) == Good(n) && n.pointer && n.end + 4 == |query|
    ensures ReadMessage(BuildResponse(query, n.end + 4, ReadU16(query, n.end), sink)) == None
  {
    query := NO_HEADER + [0xC0, 12, 0, 1, 0, 1];
    n := Name([], 14, true);
    var r := PointedResponseIsReadable(query, [], 14, 12, sink);
  }

  /** A question that points to octet 7 of the header asks for the root, but the count of
      answers in the response changes what stands there: the reader sees another question. */
  lemma HeaderPointerChangesTheQuestion(sink: seq<Byte>) returns (query: seq<Byte>, n: Name, r: seq<Byte>)
    requires |sink| == 4
    ensures ParseFrom(query, QUESTION_AT) == Good(n) && n.pointer && n.end + 4 == |query|
    ensures ReadName(query, QUESTION_AT, QUESTION_AT) == Some(([], n.end))
    ensures r == BuildResponse(query, n.end + 4, ReadU16(query, n.end), sink)
    ensures ReadMessage(r).Some? && ReadMessage(r).value.questions == [Question([[0]], TYPE_A, CLASS_IN)]
  {
    query, n := HeaderPointer();
    r := PointedResponseIsReadable(query, [], 14, 7, sink);
    var echo := Echo(query, n, sink);
    HeaderNames(r, TYPE_A, n.end, 7);
    assert [] + [[0]] == [[0]];
  }

  lemma HeaderPointer() returns (query: seq<Byte>, n: Name)
    ensures ParseFrom(query, QUESTION_AT) == Good(n) && n == Name([], 14, true) && |query| == 18
    ensures ReadName(query, QUESTION_AT, QUESTION_AT) == Some(([], n.end))
    ensures PointerTarget(query, 12) == 7 && ReadU16(query, 14) == TYPE_A && ReadU16(query, 16) == CLASS_IN
  {
    query, n := NO_HEADER + [0xC0, 7, 0, 1, 0, 1], Name([], 14, true);
    assert ReadName(query, 7, 7) == Some(([], 8));
  }

  lemma SameU16(a: seq<Byte>, b: seq<Byte>, from: nat, to: nat, p: nat)
    requires from <= p && p + 2 <= to <= |a| && to <= |b| && a[from..to] == b[from..to]
    ensures ReadU16(a, p) == ReadU16(b, p)
  {
    assert a[p] == a[from..to][p - from] && b[p] == b[from..to][p - from];
    assert a[p + 1] == a[from..to][p + 1 - from] && b[p + 1] == b[from..to][p + 1 - from];
  }

  lemma NoQuestion(r: seq<Byte>)
    requires |r| >= QUESTION_AT && ReadU16(r, 4) == 1 && ReadName(r, QUESTION_AT, QUESTION_AT) == None
    ensures ReadMessage(r) == None
  {
    var one := ReadU16(r, 4);
    assert ReadQuestions(r, QUESTION_AT, one) == None;
  }

  lemma OneQuestion(r: seq<Byte>, labels: seq<Label>, end: nat)
    requires end + 4 <= |r| && ReadName(r, QUESTION_AT, QUESTION_AT) == Some((labels, end))
    ensures ReadQuestions(r, QUESTION_AT, 1)
         == Some(([Question(labels, ReadU16(r, end), ReadU16(r, end + 2))], end + 4))
  {
    assert ReadQuestions(r, end + 4, 0) == Some(([], end + 4));
    var q := Question(labels, ReadU16(r, end), ReadU16(r, end + 2));
    assert [q] + [] == [q];
  }

  lemma OneRecord(r: seq<Byte>, at: nat, name: seq<Label>, end: nat)
    requires end + 10 <= |r| && end + 10 + ReadU16(r, end + 8) == |r| && ReadName(r, at, at) == Some((name, end))
    ensures ReadRecords(r, at, 1)
         == Some(([Record(name, ReadU16(r, end), ReadU16(r, end + 2), ReadU32(r, end + 4), r[end + 10..])], |r|))
  {
    assert ReadRecords(r, |r|, 0) == Some(([], |r|));
    assert r[end + 10..|r|] == r[end + 10..];
    var record := Record(name, ReadU16(r, end), ReadU16(r, end + 2), ReadU32(r, end + 4), r[end + 10..]);
    assert [record] + [] == [record];
  }

  lemma PointerToQuestion(r: seq<Byte>, at: nat, labels: seq<Label>, end: nat)
    requires QUESTION_AT < at && at + 2 <= |r| && r[at] == 0xC0 && r[at + 1] == QUESTION_AT
    requires ReadName(r, QUESTION_AT, QUESTION_AT) == Some((labels, end))
    ensures ReadName(r, at, at) == Some((labels, at + 2))
  {}

  lemma AnswerOctets(sink: seq<Byte>)
    requires |sink| == 4
    ensures AnswerRecord(TYPE_A, sink) == [0xC0, 12, 0, 1, 0, 1, 0, 0, 0, 60, 0, 4] + sink
  {}

  lemma AnswerFields(r: seq<Byte>, p: nat, sink: seq<Byte>)
    requires |sink| == 4 && p + 16 == |r| && r[p..] == AnswerRecord(TYPE_A, sink)
    ensures r[p] == 0xC0 && r[p + 1] == QUESTION_AT && r[p + 12..] == sink
    ensures ReadU16(r, p + 2) == TYPE_A && ReadU16(r, p + 4) == CLASS_IN
    ensures ReadU32(r, p + 6) == TTL && ReadU16(r, p + 10) == 4
  {
    AnswerOctets(sink);
    var a := r[p..];
    assert r[p] == a[0] && r[p + 1] == a[1] && r[p + 2] == a[2] && r[p + 3] == a[3] && r[p + 4] == a[4];
    assert r[p + 5] == a[5] && r[p + 6] == a[6] && r[p + 7] == a[7] && r[p + 8] == a[8] && r[p + 9] == a[9];
    assert r[p + 10] == a[10] && r[p + 11] == a[11] && r[p + 12..] == a[12..] == sink;
  }

  lemma AnswerIsRead(r: seq<Byte>, labels: seq<Label>, end: nat, sink: seq<Byte>)
    requires QUESTION_AT < end && |r| == end + 20 && |sink| == 4
    requires r[end + 4..] == AnswerRecord(TYPE_A, sink)
    requires ReadName(r, QUESTION_AT, QUESTION_AT) == Some((labels, end))
    ensures ReadRecords(r, end + 4, 1) == Some(([Record(labels, TYPE_A, CLASS_IN, TTL, sink)], |r|))
  {
    var p := end + 4;
    AnswerFields(r, p, sink);
    PointerToQuestion(r, p, labels, end);
    OneRecord(r, p, labels, p + 2);
  }

  lemma WholeMessage(r: seq<Byte>, questions: seq<Question>, e1: nat, answers: seq<Record>)
    requires |r| >= QUESTION_AT && ReadU16(r, 4) == 1 && ReadU16(r, 8) == 0 && ReadU16(r, 10) == 0
    requires ReadQuestions(r, QUESTION_AT, 1) == Some((questions, e1))
    requires ReadRecords(r, e1, ReadU16(r, 6)) == Some((answers, |r|))
    ensures ReadMessage(r) == Some(Message(ReadU16(r, 0), ReadU16(r, 2), questions, answers, [], []))
  {
    assert ReadRecords(r, |r|, 0) == Some(([], |r|));
  }
}
