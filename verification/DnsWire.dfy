/** DNS messages on the wire: the two name walks, message validation and the in-place clamp of
    the EDNS UDP payload size (sections 4.1.4 of RFC 1035 and 6.1.2 of RFC 6891). */
module DnsWire {
  import opened Core

  const DNS_PAYLOAD_MAX: U16 := 1232
  const OPT: U16 := 41
  const NAME_HOPS: nat := 128

  datatype DnsError = Truncated | NonStandardOpcode | QuestionCount | MalformedName | ResponseMismatch | NotQuery

  datatype DnsQuestion = DnsQuestion(qname: Bytes, qtype: U16, qclass: U16)

  // ---- Names ----

  predicate IsAlnum(b: Byte) {
    48 <= b <= 57 || 65 <= b <= 90 || 97 <= b <= 122
  }

  function Lower(b: Byte): (r: Byte) {
    if 65 <= b <= 90 then b + 32 else b
  }

  function NormalizeLabel(text: Bytes): (r: Result<Bytes, DnsError>) {
    if |text| == 0 || text[0] == 45 || text[|text| - 1] == 45
       || exists i :: 0 <= i < |text| && !IsAlnum(text[i]) && text[i] != 45
    then Err(MalformedName)
    else Ok(seq(|text|, i requires 0 <= i < |text| => Lower(text[i])))
  }

  function Join(labels: seq<Bytes>): (r: Bytes) {
    if |labels| == 0 then [] else if |labels| == 1 then labels[0]
    else Join(labels[..|labels| - 1]) + [46] + labels[|labels| - 1]
  }

  /** A compression pointer: both top bits of the length byte are set. */
  function Pointer(first: Byte, second: Byte): (r: nat) {
    first % 64 * 256 + second
  }

  /** `parse_name` with `hops` iterations left, the labels so far, the end fixed by the first
      pointer and the offsets already visited. */
  function ParseNameFrom(p: Bytes, offset: nat, hops: nat, labels: seq<Bytes>, fixedEnd: Option<nat>, seen: set<nat>)
    : (r: Result<(Bytes, nat), DnsError>)
    decreases hops
  {
    if hops == 0 || offset in seen then Err(MalformedName)
    else if offset >= |p| then Err(Truncated)
    else if p[offset] >= 192 then
      if offset + 1 >= |p| then Err(Truncated)
      else
        var pointer := Pointer(p[offset], p[offset + 1]);
        if pointer >= |p| then Err(MalformedName)
        else ParseNameFrom(p, pointer, hops - 1, labels, if fixedEnd.Some? then fixedEnd
            else Some(offset + 2), seen + {offset})
    else if p[offset] >= 64 then Err(MalformedName)
    else if p[offset] == 0 then
      if |labels| == 0 then Err(MalformedName)
      else Ok((Join(labels), if fixedEnd.Some? then fixedEnd.value else offset + 1))
    else
      var end := offset + 1 + p[offset];
      if end > |p| then Err(Truncated)
      else
        var text := NormalizeLabel(p[offset + 1..end]);
        if text.Err? then Err(text.error)
        else ParseNameFrom(p, end, hops - 1, labels + [text.value], fixedEnd, seen + {offset})
  }

  function ParseName(p: Bytes, offset: nat): (r: Result<(Bytes, nat), DnsError>) {
    ParseNameFrom(p, offset, NAME_HOPS, [], None, {})
  }

  function ValidateNamePointer(p: Bytes, offset: nat, start: nat): (r: Result<(), DnsError>)
    requires offset < |p|
  {
    if offset + 1 >= |p| then Err(Truncated)
    else
      var pointer := Pointer(p[offset], p[offset + 1]);
      if pointer >= start then Err(MalformedName)
      else
        match ParseName(p, pointer)
        case Err(e) => Err(e)
        case Ok(_) => Ok(())
  }

  /** `skip_name` with `hops` iterations left. */
  function SkipNameFrom(p: Bytes, offset: nat, hops: nat, start: nat): (r: Result<nat, DnsError>)
    ensures r.Ok? ==> offset < r.value <= |p|
    decreases hops
  {
    if hops == 0 then Err(MalformedName)
    else if offset >= |p| then Err(Truncated)
    else if p[offset] >= 192 then
      match ValidateNamePointer(p, offset, start)
      case Err(e) => Err(e)
      case Ok(_) => Ok(offset + 2)
    else if p[offset] >= 64 then Err(MalformedName)
    else if p[offset] == 0 then Ok(offset + 1)
    else
      var end := offset + 1 + p[offset];
      if end > |p| then Err(Truncated) else SkipNameFrom(p, end, hops - 1, start)
  }

  function SkipName(p: Bytes, offset: nat): (r: Result<nat, DnsError>)
    ensures r.Ok? ==> offset < r.value <= |p|
  {
    SkipNameFrom(p, offset, NAME_HOPS, offset)
  }

  /** Once a pointer has fixed the end, the rest of the walk cannot change it. */
  lemma {:induction false} FixedEndStays(p: Bytes, offset: nat, hops: nat, labels: seq<Bytes>, end: nat, seen: set<nat>)
    ensures var r := ParseNameFrom(p, offset, hops, labels, Some(end), seen); r.Ok? ==> r.value.1 == end
    decreases hops
  {
    if hops > 0 && offset !in seen && offset < |p| {
      if p[offset] >= 192 {
        if offset + 1 < |p| {
          FixedEndStays(p, Pointer(p[offset], p[offset + 1]), hops - 1, labels, end, seen + {offset});
        }
      } else if 0 < p[offset] < 64 && offset + 1 + p[offset] <= |p| {
        var text := NormalizeLabel(p[offset + 1..offset + 1 + p[offset]]);
        if text.Ok? {
          FixedEndStays(p, offset + 1 + p[offset], hops - 1, labels + [text.value], end, seen + {offset});
        }
      }
    }
  }

  lemma {:induction false} NameEndsAgreeFrom(p: Bytes, offset: nat, hops: nat, labels: seq<Bytes>, seen: set<nat>,
          skipHops: nat, start: nat)
    requires ParseNameFrom(p, offset, hops, labels, None, seen).Ok? && SkipNameFrom(p, offset, skipHops, start).Ok?
    ensures ParseNameFrom(p, offset, hops, labels, None, seen).value.1 == SkipNameFrom(p, offset, skipHops, start).value
    decreases hops
  {
    hide ValidateNamePointer, NormalizeLabel, Join, Pointer;
    if p[offset] >= 192 {
      FixedEndStays(p, Pointer(p[offset], p[offset + 1]), hops - 1, labels, offset + 2, seen + {offset});
    } else if p[offset] > 0 {
      var end := offset + 1 + p[offset];
      var text := NormalizeLabel(p[offset + 1..end]);
      NameEndsAgreeFrom(p, end, hops - 1, labels + [text.value], seen + {offset}, skipHops - 1, start);
    }
  }

  /** Whenever both name walks accept at an offset, they agree on where the name ends. */
  lemma {:induction false} NameEndsAgree(p: Bytes, offset: nat)
    requires ParseName(p, offset).Ok? && SkipName(p, offset).Ok?
    ensures ParseName(p, offset).value.1 == SkipName(p, offset).value
  {
    NameEndsAgreeFrom(p, offset, NAME_HOPS, [], {}, NAME_HOPS, offset);
  }

  // ---- Records and messages ----

  function RecordEnd(p: Bytes, nameEnd: nat): (r: Result<nat, DnsError>)
    ensures r.Ok? ==> nameEnd + 10 <= r.value <= |p|
  {
    if nameEnd + 10 > |p| then Err(Truncated)
    else
      var end := nameEnd + 10 + WordAt(p, nameEnd + 8);
      if end > |p| then Err(Truncated) else Ok(end)
  }

  function SkipResourceRecord(p: Bytes, offset: nat): (r: Result<nat, DnsError>)
    ensures r.Ok? ==> offset < r.value <= |p|
  {
    match SkipName(p, offset)
    case Err(e) => Err(e)
    case Ok(nameEnd) => RecordEnd(p, nameEnd)
  }

  function SkipRecords(p: Bytes, offset: nat, count: nat): (r: Result<nat, DnsError>)
    ensures r.Ok? ==> offset <= r.value && (offset <= |p| ==> r.value <= |p|)
    decreases count
  {
    if count == 0 then Ok(offset)
    else
      match SkipResourceRecord(p, offset)
      case Err(e) => Err(e)
      case Ok(next) => SkipRecords(p, next, count - 1)
  }

  function SkipQuestions(p: Bytes, offset: nat, count: nat): (r: Result<nat, DnsError>)
    ensures r.Ok? ==> offset <= r.value && (offset <= |p| ==> r.value <= |p|)
    decreases count
  {
    if count == 0 then Ok(offset)
    else
      match SkipName(p, offset)
      case Err(e) => Err(e)
      case Ok(end) => if end + 4 > |p| then Err(Truncated) else SkipQuestions(p, end + 4, count - 1)
  }

  function SaturatingAdd(a: U16, b: U16): (r: U16) {
    if a + b > 65535 then 65535 else a + b
  }

  function ParseQuestionFields(p: Bytes): (r: Result<DnsQuestion, DnsError>) {
    if |p| < 12 then Err(Truncated)
    else if WordAt(p, 4) != 1 then Err(QuestionCount)
    else
      match ParseName(p, 12)
      case Err(e) => Err(e)
      case Ok((qname, offset)) =>
        if offset + 4 > |p| then Err(Truncated)
        else Ok(DnsQuestion(qname, WordAt(p, offset), WordAt(p, offset + 2)))
  }

  /** Response bit and opcode of the flags word. */
  predicate IsResponse(flags: U16) { flags >= 0x8000 }
  predicate StandardOpcode(flags: U16) { flags / 0x800 % 16 == 0 }

  function ParseQuestion(p: Bytes): (r: Result<DnsQuestion, DnsError>) {
    if |p| < 12 then Err(Truncated)
    else if IsResponse(WordAt(p, 2)) then Err(NotQuery)
    else if !StandardOpcode(WordAt(p, 2)) then Err(NonStandardOpcode)
    else ParseQuestionFields(p)
  }

  function ValidateMessage(p: Bytes, response: bool): (r: Result<DnsQuestion, DnsError>) {
    if |p| < 12 then Err(Truncated)
    else if IsResponse(WordAt(p, 2)) != response then Err(if response then ResponseMismatch else NotQuery)
    else if !StandardOpcode(WordAt(p, 2)) then Err(NonStandardOpcode)
    else
      match ParseQuestionFields(p)
      case Err(e) => Err(e)
      case Ok(question) =>
        match SkipName(p, 12)
        case Err(e) => Err(e)
        case Ok(end) =>
          match SkipRecords(p, end + 4, RecordCount(p))
          case Err(e) => Err(e)
          case Ok(offset) => if offset != |p| then Err(Truncated) else Ok(question)
  }

  /** `cuts` are the boundaries of `count` consecutive records from `from` to the end of the message:
      each record is a name, ten fixed bytes and as much data as its length field says. */
  ghost predicate Tiles(p: Bytes, from: nat, count: nat, cuts: seq<nat>) {
    && |cuts| == count + 1 && cuts[0] == from && cuts[count] == |p|
    && forall i :: 0 <= i < count ==> IsRecord(p, cuts[i], cuts[i + 1])
  }

  ghost predicate Tiled(p: Bytes, from: nat, count: nat) {
    exists cuts :: Tiles(p, from, count, cuts)
  }

  ghost predicate IsRecord(p: Bytes, from: nat, to: nat) {
    && SkipName(p, from).Ok?
    && var end := SkipName(p, from).value; end + 10 <= |p| && to == end + 10 + WordAt(p, end + 8) && to <= |p|
  }

  lemma {:induction false} WalkTiles(p: Bytes, from: nat, count: nat) returns (cuts: seq<nat>)
    requires SkipRecords(p, from, count) == Ok(|p|)
    ensures Tiles(p, from, count, cuts)
    decreases count
  {
    hide SkipName;
    if count == 0 {
      cuts := [from];
    } else {
      var next := SkipResourceRecord(p, from).value;
      var rest := WalkTiles(p, next, count - 1);
      cuts := [from] + rest;
      forall i | 0 <= i < count ensures IsRecord(p, cuts[i], cuts[i + 1]) {
        if i > 0 { assert IsRecord(p, rest[i - 1], rest[i - 1 + 1]); }
      }
    }
  }

  lemma {:induction false} TilesWalk(p: Bytes, from: nat, count: nat, cuts: seq<nat>)
    requires Tiles(p, from, count, cuts)
    ensures SkipRecords(p, from, count) == Ok(|p|)
    decreases count
  {
    hide SkipName;
    if count > 0 {
      assert IsRecord(p, cuts[0], cuts[1]);
      forall i | 0 <= i < count - 1 ensures IsRecord(p, cuts[1..][i], cuts[1..][i + 1]) {
        assert IsRecord(p, cuts[i + 1], cuts[i + 1 + 1]);
      }
      TilesWalk(p, cuts[1], count - 1, cuts[1..]);
    }
  }

  function RecordCount(p: Bytes): (r: nat)
    requires |p| >= 12
  {
    SaturatingAdd(SaturatingAdd(WordAt(p, 6), WordAt(p, 8)), WordAt(p, 10))
  }

  /** A message validates exactly when it has the wanted direction and a standard opcode, its one
      question parses, and its records tile the rest of it to the last byte; the question reported
      is the one the record walk steps over. */
  lemma {:induction false} ValidatedIsTiled(p: Bytes, response: bool)
    ensures ValidateMessage(p, response).Ok? <==>
      && |p| >= 12 && IsResponse(WordAt(p, 2)) == response && StandardOpcode(WordAt(p, 2)) && ParseQuestionFields(p).Ok?
      && SkipName(p, 12).Ok? && Tiled(p, SkipName(p, 12).value + 4, RecordCount(p))
    ensures ValidateMessage(p, response).Ok? ==>
      && ParseName(p, 12).Ok? && ParseName(p, 12).value.1 == SkipName(p, 12).value
      && var at := SkipName(p, 12).value;
      && at + 4 <= |p|
      && ValidateMessage(p, response).value == DnsQuestion(ParseName(p, 12).value.0, WordAt(p, at), WordAt(p, at + 2))
  {
    hide SkipName, ParseName, SkipRecords, Tiled;
    if ValidateMessage(p, response).Ok? {
      NameEndsAgree(p, 12);
    }
    if |p| >= 12 && SkipName(p, 12).Ok? {
      TiledIff(p, SkipName(p, 12).value + 4, RecordCount(p));
    }
  }

  lemma TiledIff(p: Bytes, from: nat, count: nat)
    ensures SkipRecords(p, from, count) == Ok(|p|) <==> Tiled(p, from, count)
  {
    hide SkipRecords, Tiles;
    if SkipRecords(p, from, count) == Ok(|p|) {
      var cuts := WalkTiles(p, from, count);
    }
    if Tiled(p, from, count) {
      var cuts :| Tiles(p, from, count, cuts);
      TilesWalk(p, from, count, cuts);
    }
  }

  function DnsId(p: Bytes): (r: Option<U16>) {
    if |p| < 2 then None else Some(WordAt(p, 0))
  }

  function ResponseMatchesQuery(query: Bytes, response: Bytes): (r: Result<(), DnsError>) {
    if DnsId(query).None? || DnsId(response).None? then Err(Truncated)
    else if DnsId(query) != DnsId(response) then Err(ResponseMismatch)
    else if |response| < 12 then Err(Truncated)
    else if !IsResponse(WordAt(response, 2)) || !StandardOpcode(WordAt(response, 2)) then Err(ResponseMismatch)
    else if ParseQuestion(query).Err? || ValidateMessage(response, true).Err? then Err(ResponseMismatch)
    else if ParseQuestion(query).value != ValidateMessage(response, true).value then Err(ResponseMismatch)
    else Ok(())
  }

  // ---- Domain rules ----

  /** `RemoteDomainRules::matches`: the whole name, or what follows some dot, is a rule. */
  predicate RulesMatch(rules: set<Bytes>, qname: Bytes) {
    qname in rules || exists i :: 0 <= i < |qname| && qname[i] == 46 && qname[i + 1..] in rules
  }

  /** `domain_matches`: the name equals the rule or ends with a dot and the rule. */
  predicate DomainMatches(rule: Bytes, qname: Bytes) {
    qname == rule
    || (|rule| < |qname| && qname[|qname| - |rule|..] == rule && qname[|qname| - |rule| - 1] == 46)
  }

  /** The hashed suffix lookup decides exactly the rule-by-rule definition. */
  lemma {:induction false} RulesMatchIsAnyDomainMatch(rules: set<Bytes>, qname: Bytes)
    ensures RulesMatch(rules, qname) <==> exists rule :: rule in rules && DomainMatches(rule, qname)
  {
    forall i | 0 <= i < |qname| && qname[i] == 46 && qname[i + 1..] in rules
      ensures DomainMatches(qname[i + 1..], qname)
    {
      assert |qname| - |qname[i + 1..]| - 1 == i;
    }
    forall rule | rule in rules && DomainMatches(rule, qname) ensures RulesMatch(rules, qname) {
      if qname != rule {
        var i := |qname| - |rule| - 1;
        assert qname[i + 1..] == rule;
      }
    }
  }

  // ---- The EDNS clamp ----

  /** CLASS of the OPT record whose fixed part starts at `e` after the clamp. */
  function ClampClass(p: Bytes, e: nat): (r: Bytes)
    requires e + 10 <= |p|
    ensures |r| == |p|
  {
    if WordAt(p, e) == OPT && WordAt(p, e + 2) > DNS_PAYLOAD_MAX then Splice(p, e + 2, Octets16(DNS_PAYLOAD_MAX)) else p
  }

  /** Where the fixed part of the record at `offset` starts and where the record ends; the end may
      still lie beyond the payload. */
  function RecordAt(p: Bytes, offset: nat): (r: Result<(nat, nat), DnsError>)
    ensures r.Ok? ==> offset < r.value.0 && r.value.0 + 10 <= |p| && r.value.0 + 10 <= r.value.1
  {
    match SkipName(p, offset)
    case Err(e) => Err(e)
    case Ok(e) => if e + 10 > |p| then Err(Truncated) else Ok((e, e + 10 + WordAt(p, e + 8)))
  }

  /** The additional-record loop: edits are visible to the name checks of later records. */
  function ClampRecords(p: Bytes, offset: nat, count: nat, clamped: bool): (r: (Bytes, Result<(nat, bool), DnsError>))
    ensures |r.0| == |p|
    decreases count
  {
    if count == 0 then (p, Ok((offset, clamped)))
    else if RecordAt(p, offset).Err? then (p, Err(RecordAt(p, offset).error))
    else
      var (e, end) := RecordAt(p, offset).value;
      var q := ClampClass(p, e);
      if end > |p| then (q, Err(Truncated))
      else ClampRecords(q, end, count - 1, clamped || q != p)
  }

  /** The offset of the additional section, or why it cannot be reached. */
  function AdditionalOffset(p: Bytes): (r: Result<nat, DnsError>)
    requires |p| >= 12
    ensures r.Ok? ==> 12 <= r.value <= |p|
  {
    match SkipQuestions(p, 12, WordAt(p, 4))
    case Err(e) => Err(e)
    case Ok(offset) => SkipRecords(p, offset, SaturatingAdd(WordAt(p, 6), WordAt(p, 8)))
  }

  /** `clamp_edns_udp_payload`: the payload afterwards, also after an error, and the result. */
  function ClampEdnsSpec(p: Bytes): (r: (Bytes, Result<bool, DnsError>))
    ensures |r.0| == |p|
  {
    if |p| < 12 then (p, Err(Truncated))
    else
      match AdditionalOffset(p)
      case Err(e) => (p, Err(e))
      case Ok(offset) =>
        match ClampRecords(p, offset, WordAt(p, 10), false)
        case (q, Err(e)) => (q, Err(e))
        case (q, Ok((end, clamped))) => (q, if end != |p| then Err(Truncated) else Ok(clamped))
  }

  /** Offsets of the CLASS fields of the OPT records the loop reaches. */
  ghost function OptClasses(p: Bytes, offset: nat, count: nat): (r: set<nat>)
    ensures forall c :: c in r ==> offset + 2 < c && c + 2 <= |p|
    decreases count
  {
    if count == 0 || RecordAt(p, offset).Err? then {}
    else
      var (e, end) := RecordAt(p, offset).value;
      (if WordAt(p, e) == OPT then {e + 2} else {})
      + (if end > |p| then {} else OptClasses(ClampClass(p, e), end, count - 1))
  }

  /** Byte `i` belongs to one of the two-byte fields at `classes`. */
  ghost predicate InClass(classes: set<nat>, i: nat) {
    i in classes || (i > 0 && i - 1 in classes)
  }

  ghost predicate Agree(p: Bytes, q: Bytes, from: nat, to: nat) {
    |p| == |q| && forall i :: from <= i < to && i < |p| ==> p[i] == q[i]
  }

  /** The end of a name depends only on the bytes of the name itself; what a pointer leads to
      can only make the walk fail. */
  lemma {:induction false} SkipNameLocal(p: Bytes, q: Bytes, offset: nat, hops: nat, start: nat)
    requires SkipNameFrom(p, offset, hops, start).Ok? && Agree(p, q, offset, SkipNameFrom(p, offset, hops, start).value)
    ensures SkipNameFrom(q, offset, hops, start).Ok? ==>
      SkipNameFrom(q, offset, hops, start).value == SkipNameFrom(p, offset, hops, start).value
    decreases hops
  {
    hide ValidateNamePointer;
    assert p[offset] == q[offset];
    if 0 < p[offset] < 64 {
      SkipNameLocal(p, q, offset + 1 + p[offset], hops - 1, start);
    }
  }

  /** The walk at one offset, over a payload that agrees on the name. */
  lemma {:induction false} NameLocal(p: Bytes, q: Bytes, offset: nat)
    requires SkipName(p, offset).Ok? && Agree(p, q, offset, SkipName(p, offset).value)
    ensures SkipName(q, offset).Ok? ==> SkipName(q, offset) == SkipName(p, offset)
  {
    SkipNameLocal(p, q, offset, NAME_HOPS, offset);
  }

  lemma {:induction false} SkipRecordLocal(p: Bytes, q: Bytes, offset: nat)
    requires SkipResourceRecord(p, offset).Ok? && Agree(p, q, offset, SkipResourceRecord(p, offset).value)
    ensures SkipResourceRecord(q, offset).Ok? ==> SkipResourceRecord(q, offset) == SkipResourceRecord(p, offset)
  {
    hide SkipName;
    NameLocal(p, q, offset);
    var e := SkipName(p, offset).value;
    assert p[e + 8] == q[e + 8] && p[e + 9] == q[e + 9];
  }

  lemma {:induction false} SkipRecordsLocal(p: Bytes, q: Bytes, offset: nat, count: nat)
    requires SkipRecords(p, offset, count).Ok? && Agree(p, q, offset, SkipRecords(p, offset, count).value)
    ensures SkipRecords(q, offset, count).Ok? ==> SkipRecords(q, offset, count) == SkipRecords(p, offset, count)
    decreases count
  {
    hide SkipResourceRecord;
    if count > 0 {
      SkipRecordLocal(p, q, offset);
      SkipRecordsLocal(p, q, SkipResourceRecord(p, offset).value, count - 1);
    }
  }

  lemma AgreeWithin(p: Bytes, q: Bytes, from: nat, to: nat, a: nat, b: nat)
    requires Agree(p, q, from, to) && from <= a && b <= to
    ensures Agree(p, q, a, b) && |p| == |q|
  {
  }

  lemma {:induction false} SkipQuestionsLocal(p: Bytes, q: Bytes, offset: nat, count: nat)
    requires SkipQuestions(p, offset, count).Ok? && Agree(p, q, offset, SkipQuestions(p, offset, count).value)
    ensures SkipQuestions(q, offset, count).Ok? ==> SkipQuestions(q, offset, count) == SkipQuestions(p, offset, count)
    decreases count
  {
    hide SkipName, Agree;
    if count > 0 {
      var next := SkipName(p, offset).value + 4;
      var end := SkipQuestions(p, offset, count).value;
      AgreeWithin(p, q, offset, end, offset, SkipName(p, offset).value);
      AgreeWithin(p, q, offset, end, next, end);
      NameLocal(p, q, offset);
      SkipQuestionsLocal(p, q, next, count - 1);
    }
  }

  lemma {:induction false} AdditionalOffsetLocal(p: Bytes, q: Bytes)
    requires |p| >= 12 && AdditionalOffset(p).Ok? && Agree(p, q, 0, AdditionalOffset(p).value)
    ensures AdditionalOffset(q).Ok? ==> AdditionalOffset(q) == AdditionalOffset(p)
  {
    hide SkipQuestions, SkipRecords;
    assert WordAt(p, 4) == WordAt(q, 4) && WordAt(p, 6) == WordAt(q, 6) && WordAt(p, 8) == WordAt(q, 8);
    var offset := SkipQuestions(p, 12, WordAt(p, 4)).value;
    SkipQuestionsLocal(p, q, 12, WordAt(p, 4));
    SkipRecordsLocal(p, q, offset, SaturatingAdd(WordAt(p, 6), WordAt(p, 8)));
  }

  /** One round of the loop. */
  lemma {:induction false} ClampUnfold(p: Bytes, offset: nat, count: nat, clamped: bool)
    requires count > 0 && RecordAt(p, offset).Ok?
    ensures var (e, end) := RecordAt(p, offset).value; var m := ClampClass(p, e);
      ClampRecords(p, offset, count, clamped)
        == if end > |p| then (m, Err(Truncated)) else ClampRecords(m, end, count - 1, clamped || m != p)
    ensures var (e, end) := RecordAt(p, offset).value; var m := ClampClass(p, e);
      OptClasses(p, offset, count)
        == (if WordAt(p, e) == OPT then {e + 2} else {}) + (if end > |p| then {} else OptClasses(m, end, count - 1))
  {
  }

  lemma {:induction false} ClampStops(p: Bytes, offset: nat, count: nat, clamped: bool)
    requires count == 0 || RecordAt(p, offset).Err?
    ensures ClampRecords(p, offset, count, clamped).0 == p && OptClasses(p, offset, count) == {}
    ensures count == 0 ==> ClampRecords(p, offset, count, clamped).1 == Ok((offset, clamped))
    ensures count > 0 ==> ClampRecords(p, offset, count, clamped).1.Err?
  {
  }

  /** The loop writes CLASS bytes of OPT records only, and never before its start. */
  lemma {:induction false} ClampRecordsFrame(p: Bytes, offset: nat, count: nat, clamped: bool)
    ensures var q := ClampRecords(p, offset, count, clamped).0; var classes := OptClasses(p, offset, count);
      forall i :: 0 <= i < |p| && !InClass(classes, i) ==> q[i] == p[i]
    decreases count
  {
    hide RecordAt, ClampRecords, OptClasses;
    if count == 0 || RecordAt(p, offset).Err? {
      ClampStops(p, offset, count, clamped);
    } else {
      var (e, end) := RecordAt(p, offset).value;
      var m := ClampClass(p, e);
      ClampUnfold(p, offset, count, clamped);
      var classes := OptClasses(p, offset, count);
      assert WordAt(p, e) == OPT ==> InClass(classes, e + 2) && InClass(classes, e + 3);
      if end <= |p| {
        ClampRecordsFrame(m, end, count - 1, clamped || m != p);
        assert forall i: nat :: InClass(OptClasses(m, end, count - 1), i) ==> InClass(classes, i);
      }
    }
  }

  lemma {:induction false} ClampRecordsBefore(p: Bytes, offset: nat, count: nat, clamped: bool)
    ensures Agree(p, ClampRecords(p, offset, count, clamped).0, 0, offset + 3)
  {
    hide ClampRecords, OptClasses;
    ClampRecordsFrame(p, offset, count, clamped);
  }

  /** On success every OPT class is within the limit and a change is reported exactly when made. */
  lemma {:induction false} ClampRecordsBounds(p: Bytes, offset: nat, count: nat, clamped: bool)
    requires ClampRecords(p, offset, count, clamped).1.Ok?
    ensures var (q, r) := ClampRecords(p, offset, count, clamped);
      && (forall c :: c in OptClasses(p, offset, count) ==> WordAt(q, c) <= DNS_PAYLOAD_MAX)
      && r.value.1 == (clamped || q != p)
    decreases count
  {
    hide RecordAt, ClampRecords, OptClasses;
    if count == 0 || RecordAt(p, offset).Err? {
      ClampStops(p, offset, count, clamped);
    } else {
      var (e, end) := RecordAt(p, offset).value;
      var m := ClampClass(p, e);
      ClampUnfold(p, offset, count, clamped);
      ClampRecordsBounds(m, end, count - 1, clamped || m != p);
      ClampRecordsBefore(m, end, count - 1, clamped || m != p);
      var q := ClampRecords(m, end, count - 1, clamped || m != p).0;
      assert q[e + 2] == m[e + 2] && q[e + 3] == m[e + 3];
      ClassKept(p, m, q, e);
    }
  }

  lemma ClassKept(p: Bytes, m: Bytes, q: Bytes, e: nat)
    requires e + 10 <= |p| == |q| && m == ClampClass(p, e) && q[e + 2] == m[e + 2] && q[e + 3] == m[e + 3]
    ensures m != p ==> q != p
    ensures WordAt(p, e) == OPT ==> WordAt(q, e + 2) <= DNS_PAYLOAD_MAX
  {
    if m != p {
      assert WordAt(q, e + 2) == DNS_PAYLOAD_MAX != WordAt(p, e + 2);
    }
  }

  /** A payload on which the loop has nothing left to clamp, whether or not its walk succeeds. */
  ghost predicate Settled(p: Bytes, offset: nat, count: nat)
    decreases count
  {
    count > 0 && RecordAt(p, offset).Ok? ==>
      var (e, end) := RecordAt(p, offset).value;
      ClampClass(p, e) == p && (end <= |p| ==> Settled(p, end, count - 1))
  }

  lemma {:induction false} SettledIsKept(p: Bytes, offset: nat, count: nat, clamped: bool)
    requires Settled(p, offset, count)
    ensures var (q, r) := ClampRecords(p, offset, count, clamped); q == p && (r.Ok? ==> r.value.1 == clamped)
    decreases count
  {
    hide RecordAt;
    if count > 0 && RecordAt(p, offset).Ok? {
      var (e, end) := RecordAt(p, offset).value;
      if end <= |p| {
        SettledIsKept(p, end, count - 1, clamped);
      }
    }
  }

  /** Pointers into clamped bytes may break a later walk but never make it clamp again. */
  lemma {:induction false} ClampedIsSettled(p: Bytes, offset: nat, count: nat, clamped: bool)
    requires ClampRecords(p, offset, count, clamped).1.Ok?
    ensures Settled(ClampRecords(p, offset, count, clamped).0, offset, count)
    decreases count
  {
    hide RecordAt, ClampRecords, OptClasses;
    if count > 0 {
      if RecordAt(p, offset).Err? { ClampStops(p, offset, count, clamped); }
      var (e, end) := RecordAt(p, offset).value;
      var m := ClampClass(p, e);
      ClampUnfold(p, offset, count, clamped);
      var q := ClampRecords(m, end, count - 1, clamped || m != p).0;
      ClampRecordsBefore(m, end, count - 1, clamped || m != p);
      ClampedIsSettled(m, end, count - 1, clamped || m != p);
      RecordLocal(p, m, q, offset);
    }
  }

  lemma {:induction false} RecordLocal(p: Bytes, m: Bytes, q: Bytes, offset: nat)
    requires RecordAt(p, offset).Ok? && |p| == |q|
    requires var (e, end) := RecordAt(p, offset).value; m == ClampClass(p, e) && Agree(m, q, 0, e + 10)
    ensures var (e, end) := RecordAt(p, offset).value;
      ClampClass(q, e) == q && (RecordAt(q, offset).Ok? ==> RecordAt(q, offset) == RecordAt(p, offset))
  {
    hide SkipName, ClampClass, Agree;
    var (e, end) := RecordAt(p, offset).value;
    ClampedBefore(p, m, q, offset, e);
    NameLocal(p, q, offset);
    AgreeWithin(m, q, 0, e + 10, e, e + 10);
    FixedPartKept(p, m, q, e);
  }

  lemma ClampedBefore(p: Bytes, m: Bytes, q: Bytes, offset: nat, e: nat)
    requires e + 10 <= |p| && m == ClampClass(p, e) && Agree(m, q, 0, e + 10)
    ensures Agree(p, q, offset, e)
  {
  }

  lemma FixedPartKept(p: Bytes, m: Bytes, q: Bytes, e: nat)
    requires e + 10 <= |p| == |q| && m == ClampClass(p, e) && Agree(m, q, e, e + 10)
    ensures ClampClass(q, e) == q && WordAt(q, e + 8) == WordAt(p, e + 8)
  {
    assert q[e] == m[e] && q[e + 1] == m[e + 1] && q[e + 2] == m[e + 2] && q[e + 3] == m[e + 3];
    assert q[e + 8] == m[e + 8] && q[e + 9] == m[e + 9];
  }

  /** A successful clamp changes only CLASS bytes of OPT records in the additional section, leaves
      every one at most 1232 and reports exactly whether it changed something; a second pass over
      the result never clamps again, whatever compression pointers now see. */
  lemma {:induction false} ClampEdnsCorrect(p: Bytes)
    requires ClampEdnsSpec(p).1.Ok?
    ensures |p| >= 12 && AdditionalOffset(p).Ok?
    ensures var (q, r) := ClampEdnsSpec(p); var classes := OptClasses(p, AdditionalOffset(p).value, WordAt(p, 10));
      && (forall i :: 0 <= i < |p| && !InClass(classes, i) ==> q[i] == p[i])
      && (forall c :: c in classes ==> WordAt(q, c) <= DNS_PAYLOAD_MAX)
      && r.value == (q != p)
      && ClampEdnsSpec(q).0 == q && ClampEdnsSpec(q).1 != Ok(true)
  {
    hide AdditionalOffset, ClampRecords, OptClasses, Settled;
    var offset := AdditionalOffset(p).value;
    var count := WordAt(p, 10);
    var q := ClampRecords(p, offset, count, false).0;
    ClampRecordsFrame(p, offset, count, false);
    ClampRecordsBefore(p, offset, count, false);
    ClampRecordsBounds(p, offset, count, false);
    ClampedIsSettled(p, offset, count, false);
    AdditionalOffsetLocal(p, q);
    SettledIsKept(q, offset, count, false);
    assert WordAt(q, 10) == WordAt(p, 10);
  }

  // ---- The loops ----

  /** `skip_name`. */
  method SkipNameLoop(p: Bytes, start: nat) returns (r: Result<nat, DnsError>)
    ensures r == SkipName(p, start)
  {
    hide ValidateNamePointer;
    var offset: nat := start;
    for i := 0 to NAME_HOPS
      invariant SkipName(p, start) == SkipNameFrom(p, offset, NAME_HOPS - i, start)
    {
      if offset >= |p| { return Err(Truncated); }
      var length := p[offset];
      if length >= 192 {
        var valid := ValidateNamePointer(p, offset, start);
        return if valid.Err? then Err(valid.error) else Ok(offset + 2);
      }
      if length >= 64 { return Err(MalformedName); }
      offset := offset + 1;
      if length == 0 { return Ok(offset); }
      offset := offset + length;
      if offset > |p| { return Err(Truncated); }
    }
    r := Err(MalformedName);
  }

  /** One turn of the name walk. */
  lemma NameTurn(p: Bytes, offset: nat, hops: nat, labels: seq<Bytes>, fixedEnd: Option<nat>, seen: set<nat>)
    requires hops > 0 && offset !in seen && offset < |p|
    ensures var r := ParseNameFrom(p, offset, hops, labels, fixedEnd, seen);
      if p[offset] >= 192 then
        if offset + 1 >= |p| then r == Err(Truncated)
        else
          var pointer := Pointer(p[offset], p[offset + 1]);
          r == if pointer >= |p| then Err(MalformedName)
               else ParseNameFrom(p, pointer, hops - 1, labels, if fixedEnd.Some? then fixedEnd
                   else Some(offset + 2), seen + {offset})
      else if p[offset] >= 64 then r == Err(MalformedName)
      else if p[offset] == 0 then
        r == if |labels| == 0 then Err(MalformedName)
            else Ok((Join(labels), if fixedEnd.Some? then fixedEnd.value else offset + 1))
      else
        var end := offset + 1 + p[offset];
        if end > |p| then r == Err(Truncated)
        else
          var text := NormalizeLabel(p[offset + 1..end]);
          r == if text.Err? then Err(text.error)
               else ParseNameFrom(p, end, hops - 1, labels + [text.value], fixedEnd, seen + {offset})
  {
    hide NormalizeLabel, Join, Pointer;
  }

  lemma NameStops(p: Bytes, offset: nat, hops: nat, labels: seq<Bytes>, fixedEnd: Option<nat>, seen: set<nat>)
    ensures hops == 0 || offset in seen ==> ParseNameFrom(p, offset, hops, labels, fixedEnd, seen) == Err(MalformedName)
    ensures hops > 0 && offset !in seen && offset >= |p| ==>
        ParseNameFrom(p, offset, hops, labels, fixedEnd, seen) == Err(Truncated)
  {
  }

  /** `parse_name`. */
  method ParseNameLoop(p: Bytes, start: nat) returns (r: Result<(Bytes, nat), DnsError>)
    ensures r == ParseName(p, start)
  {
    hide NormalizeLabel, Join, Pointer, ParseNameFrom;
    var offset: nat := start;
    var labels: seq<Bytes>, fixedEnd: Option<nat>, seen: set<nat> := [], None, {};
    for i := 0 to NAME_HOPS
      invariant ParseName(p, start) == ParseNameFrom(p, offset, NAME_HOPS - i, labels, fixedEnd, seen)
    {
      NameStops(p, offset, NAME_HOPS - i, labels, fixedEnd, seen);
      if offset in seen { return Err(MalformedName); }
      if offset >= |p| { return Err(Truncated); }
      NameTurn(p, offset, NAME_HOPS - i, labels, fixedEnd, seen);
      var length := p[offset];
      if length >= 192 {
        if offset + 1 >= |p| { return Err(Truncated); }
        var pointer := Pointer(length, p[offset + 1]);
        if pointer >= |p| { return Err(MalformedName); }
        seen := seen + {offset};
        if fixedEnd.None? { fixedEnd := Some(offset + 2); }
        offset := pointer;
      } else if length >= 64 {
        return Err(MalformedName);
      } else if length == 0 {
        if |labels| == 0 { return Err(MalformedName); }
        return Ok((Join(labels), if fixedEnd.Some? then fixedEnd.value else offset + 1));
      } else {
        var end := offset + 1 + length;
        if end > |p| { return Err(Truncated); }
        var text := NormalizeLabel(p[offset + 1..end]);
        if text.Err? { return Err(text.error); }
        seen := seen + {offset};
        labels := labels + [text.value];
        offset := end;
      }
    }
    NameStops(p, offset, 0, labels, fixedEnd, seen);
    r := Err(MalformedName);
  }

  /** The additional-record loop of `clamp_edns_udp_payload`, in place. */
  method ClampAdditional(payload: array<Byte>, start: nat, count: nat) returns (r: Result<(nat, bool), DnsError>)
    modifies payload
    ensures (payload[..], r) == ClampRecords(old(payload[..]), start, count, false)
  {
    hide RecordAt, ClampRecords, OptClasses;
    var offset: nat := start;
    var clamped := false;
    ghost var p := payload[..];
    ghost var goal := ClampRecords(p, start, count, false);
    for i := 0 to count
      invariant payload[..] == p
      invariant ClampRecords(p, offset, count - i, clamped) == goal
    {
      var record := RecordAt(payload[..], offset);
      if record.Err? {
        ClampStopsWith(p, offset, count - i, clamped);
        return Err(record.error);
      }
      ClampUnfold(p, offset, count - i, clamped);
      var (e, end) := record.value;
      if Be16(payload[e], payload[e + 1]) == OPT && Be16(payload[e + 2], payload[e + 3]) > DNS_PAYLOAD_MAX {
        payload[e + 2], payload[e + 3] := Octets16(DNS_PAYLOAD_MAX)[0], Octets16(DNS_PAYLOAD_MAX)[1];
        clamped := true;
        ChangedClass(p, e);
      }
      p := ClampClass(p, e);
      assert payload[..] == p;
      if end > payload.Length { return Err(Truncated); }
      offset := end;
    }
    ClampStops(p, offset, 0, clamped);
    r := Ok((offset, clamped));
  }

  lemma ChangedClass(p: Bytes, e: nat)
    requires e + 10 <= |p| && WordAt(p, e) == OPT && WordAt(p, e + 2) > DNS_PAYLOAD_MAX
    ensures ClampClass(p, e) != p
  {
    assert WordAt(ClampClass(p, e), e + 2) == DNS_PAYLOAD_MAX;
  }

  lemma ClampStopsWith(p: Bytes, offset: nat, count: nat, clamped: bool)
    requires count > 0 && RecordAt(p, offset).Err?
    ensures ClampRecords(p, offset, count, clamped) == (p, Err(RecordAt(p, offset).error))
  {
  }

  /** `clamp_edns_udp_payload`, in place. */
  method ClampEdnsUdpPayload(payload: array<Byte>) returns (r: Result<bool, DnsError>)
    modifies payload
    ensures (payload[..], r) == ClampEdnsSpec(old(payload[..]))
  {
    hide ClampRecords, AdditionalOffset;
    if payload.Length < 12 { return Err(Truncated); }
    var start := AdditionalOffset(payload[..]);
    if start.Err? { return Err(start.error); }
    var done := ClampAdditional(payload, start.value, Be16(payload[10], payload[11]));
    if done.Err? { return Err(done.error); }
    r := if done.value.0 != payload.Length then Err(Truncated) else Ok(done.value.1);
  }
}
