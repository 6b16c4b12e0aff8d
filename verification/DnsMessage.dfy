/**
 `proxy/src/dns-relay/dns-message.ts`: the DNS wire codec of the relay (RFC 1035, sections 4.1.1 and
 4.1.4). Buffers are sequences of bytes; names are Latin-1 text, lower-cased when read.
 */
module DnsMessage {
  import opened Wrappers
  import opened Text
  import opened Ipv4
  import BS = BypassSet

  type Byte = b: int | 0 <= b < 256

  type Buffer = seq<Byte>

  const HEADER_LENGTH := 12
  const TYPE_A := 1
  const TYPE_PTR := 12
  const RCODE_SERVFAIL := 2
  const RCODE_NXDOMAIN := 3
  const MAX_NAME_JUMPS: nat := 32

  // ---------------------------------------------------------------- integers on the wire

  function U16(b: Buffer, i: nat): (v: nat)
    requires i + 2 <= |b|
    ensures v < 0x1_0000
  {
    (b[i] as int) * 0x100 + b[i + 1] as int
  }

  function U32(b: Buffer, i: nat): (v: nat)
    requires i + 4 <= |b|
  {
    U16(b, i) * 0x1_0000 + U16(b, i + 2)
  }

  function Bytes16(v: nat): (r: Buffer)
    requires v < 0x1_0000
    ensures |r| == 2 && U16(r, 0) == v
  {
    [v / 0x100, v % 0x100]
  }

  function Bytes32(v: nat): (r: Buffer)
    requires v < 0x1_0000_0000
    ensures |r| == 4 && U32(r, 0) == v
  {
    var r := Bytes16(v / 0x1_0000) + Bytes16(v % 0x1_0000);
    assert U16(r, 0) == v / 0x1_0000 && U16(r, 2) == v % 0x1_0000;
    r
  }

  // ---------------------------------------------------------------- text on the wire

  /** `toString("latin1")`. */
  function Latin1(b: Buffer): (s: string)
    ensures |s| == |b| && forall i :: 0 <= i < |b| ==> s[i] == b[i] as char
  {
    if b == [] then "" else [b[0] as char] + Latin1(b[1..])
  }

  /** `Buffer.from(s, "latin1")`: the low byte of every character. */
  function LowBytes(s: string): (b: Buffer)
    ensures |b| == |s| && forall i :: 0 <= i < |s| ==> b[i] == s[i] as int % 256
  {
    if s == "" then [] else [s[0] as int % 256] + LowBytes(s[1..])
  }

  // ---------------------------------------------------------------- reading a name

  datatype NameResult = NameResult(name: string, next: nat)

  predicate IsPointer(length: Byte) { length >= 0xc0 }   // the two top bits are set

  predicate IsReserved(length: Byte) { 0x40 <= length < 0xc0 }

  function Target(b: Buffer, off: nat): nat
    requires off + 1 < |b| && IsPointer(b[off])
  {
    (b[off] as int - 0xc0) * 0x100 + b[off + 1] as int
  }

  /**
   Section 4.1.4: the labels of the name at `off`, following at most `hops` pointers: a zero byte ends
   the name, a pointer continues it elsewhere, anything else is a label of that many bytes.
   */
  function LabelsFrom(b: Buffer, off: nat, hops: nat): Option<seq<string>>
    decreases hops, if off < |b| then |b| - off else 0
  {
    if off >= |b| then None
    else
      var length := b[off];
      if length == 0 then Some([])
      else if IsPointer(length) then
        if off + 1 >= |b| || hops == 0 then None else LabelsFrom(b, Target(b, off), hops - 1)
      else if IsReserved(length) || off + 1 + length > |b| then None
      else match LabelsFrom(b, off + 1 + length, hops)
        case None => None
        case Some(rest) => Some([Latin1(b[off + 1..off + 1 + length])] + rest)
  }

  /** Where the name's own bytes end: after its zero byte, or after its first pointer. */
  function EndOf(b: Buffer, off: nat): (r: Option<nat>)
    ensures r.Some? ==> off < r.value <= |b|
    decreases if off < |b| then |b| - off else 0
  {
    if off >= |b| then None
    else
      var length := b[off];
      if length == 0 then Some(off + 1)
      else if IsPointer(length) then if off + 1 >= |b| then None else Some(off + 2)
      else if IsReserved(length) || off + 1 + length > |b| then None
      else EndOf(b, off + 1 + length)
  }

  function NameAt(b: Buffer, start: nat): (r: Option<NameResult>)
    ensures r.Some? ==> start < r.value.next <= |b|
  {
    match (LabelsFrom(b, start, MAX_NAME_JUMPS), EndOf(b, start))
    case (Some(labels), Some(next)) => Some(NameResult(Lower(Join(labels, '.')), next))
    case _ => None
  }

  /** Prepends labels already read to what is still to come. */
  function Prepend(labels: seq<string>, rest: Option<seq<string>>): Option<seq<string>> {
    match rest
    case None => None
    case Some(ls) => Some(labels + ls)
  }

  /** One step of reading, as the loop below takes it: by the kind of byte at `off`. */
  lemma NameStep(b: Buffer, off: nat, hops: nat, labels: seq<string>)
    ensures off >= |b| ==> LabelsFrom(b, off, hops).None?
    ensures off < |b| && b[off] == 0 ==>
              LabelsFrom(b, off, hops) == Some([]) && Prepend(labels, LabelsFrom(b, off, hops)) == Some(labels)
              && EndOf(b, off) == Some(off + 1)
    ensures off < |b| && IsPointer(b[off]) ==>
              && (off + 1 >= |b| || hops == 0 ==> LabelsFrom(b, off, hops).None?)
              && (off + 1 < |b| && hops > 0 ==>
                    LabelsFrom(b, off, hops) == LabelsFrom(b, Target(b, off), hops - 1)
                    && EndOf(b, off) == Some(off + 2))
    ensures off < |b| && IsReserved(b[off]) ==> LabelsFrom(b, off, hops).None?
    ensures off < |b| && 0 < b[off] < 0x40 ==>
              var after := off + 1 + b[off];
              && (after > |b| ==> LabelsFrom(b, off, hops).None?)
              && (after <= |b| ==>
                    && Prepend(labels, LabelsFrom(b, off, hops))
                       == Prepend(labels + [Latin1(b[off + 1..after])], LabelsFrom(b, after, hops))
                    && EndOf(b, off) == EndOf(b, after))
  {
    if off < |b| && b[off] == 0 {
      assert labels + [] == labels;
    } else if off < |b| && b[off] < 0x40 && off + 1 + b[off] <= |b| {
      var after := off + 1 + b[off];
      var text := Latin1(b[off + 1..after]);
      var rest := LabelsFrom(b, after, hops);
      assert rest.Some? ==> labels + ([text] + rest.value) == labels + [text] + rest.value;
    }
  }

  method ReadName(buffer: Buffer, start: nat) returns (r: Option<NameResult>)
    ensures r == NameAt(buffer, start)
  {
    hide LabelsFrom, EndOf, Latin1, Lower, Join, Target;
    var labels: seq<string> := [];
    var offset: nat := start;
    var next: Option<nat> := None;
    var jumps := 0;
    PrependNothing(LabelsFrom(buffer, start, MAX_NAME_JUMPS));
    while true
      invariant jumps <= MAX_NAME_JUMPS
      invariant LabelsFrom(buffer, start, MAX_NAME_JUMPS)
                == Prepend(labels, LabelsFrom(buffer, offset, MAX_NAME_JUMPS - jumps))
      invariant EndOf(buffer, start) == if next.Some? then next else EndOf(buffer, offset)
      decreases MAX_NAME_JUMPS - jumps, if offset < |buffer| then |buffer| - offset else 0
    {
      NameStep(buffer, offset, MAX_NAME_JUMPS - jumps, labels);
      if offset >= |buffer| {
        return None;
      }
      var length := buffer[offset];
      if length == 0 {
        return Some(NameResult(Lower(Join(labels, '.')), if next.Some? then next.value else offset + 1));
      }
      if IsPointer(length) {
        if offset + 1 >= |buffer| {
          return None;
        }
        if next.None? {
          next := Some(offset + 2);
        }
        offset := Target(buffer, offset);
        jumps := jumps + 1;
        if jumps > MAX_NAME_JUMPS {
          return None;
        }
        continue;
      }
      if IsReserved(length) {
        return None;
      }
      if offset + 1 + length > |buffer| {
        return None;
      }
      labels := labels + [Latin1(buffer[offset + 1..offset + 1 + length])];
      offset := offset + 1 + length;
    }
  }

  lemma PrependNothing(r: Option<seq<string>>)
    ensures Prepend([], r) == r
  {
    if r.Some? {
      assert [] + r.value == r.value;
    }
  }

  // ---------------------------------------------------------------- queries

  datatype Question = Question(id: nat, name: string, qtype: nat, questionEnd: nat, additionalCount: nat)

  /** The flag word's top bit: this message is a response. */
  predicate IsResponse(b: Buffer)
    requires |b| >= 4
  {
    b[2] >= 0x80
  }

  function ParseQuery(b: Buffer): (r: Option<Question>)
    ensures r.Some? ==> HEADER_LENGTH + 4 < r.value.questionEnd <= |b|
  {
    if |b| < HEADER_LENGTH || IsResponse(b) || U16(b, 4) < 1 then None
    else match NameAt(b, HEADER_LENGTH)
      case None => None
      case Some(n) =>
        if n.next + 4 > |b| then None
        else Some(Question(U16(b, 0), n.name, U16(b, n.next), n.next + 4, U16(b, 10)))
  }

  function EncodeLabels(labels: seq<string>): Buffer
    requires forall i :: 0 <= i < |labels| ==> |labels[i]| < 256
  {
    if labels == [] then [0] else [|labels[0]|] + LowBytes(labels[0]) + EncodeLabels(labels[1..])
  }

  /** `name.replace(/\.$/, "")`. */
  function StripDot(name: string): string {
    if |name| > 0 && name[|name| - 1] == '.' then name[..|name| - 1] else name
  }

  predicate AreLabels(labels: seq<string>) {
    forall i :: 0 <= i < |labels| ==> 1 <= |labels[i]| <= 63
  }

  /** A standard query with recursion desired and one question. */
  function QueryFor(labels: seq<string>, qtype: nat, id: int): Buffer
    requires AreLabels(labels) && qtype < 0x1_0000
  {
    Bytes16(id % 0x1_0000) + [1, 0, 0, 1, 0, 0, 0, 0, 0, 0] + EncodeLabels(labels) + Bytes16(qtype) + [0, 1]
  }

  function BuildAQuery(name: string, id: int): Option<Buffer> {
    var labels := Split(StripDot(name), '.');
    if !AreLabels(labels) then None else Some(QueryFor(labels, TYPE_A, id))
  }

  function ReverseLabels(address: string): (labels: seq<string>)
    requires IsIpv4Address(address)
    ensures AreLabels(labels)
  {
    var parts := Split(address, '.');
    [parts[3], parts[2], parts[1], parts[0], "in-addr", "arpa"]
  }

  function BuildPtrQuery(address: string, id: int): Option<Buffer> {
    if !IsIpv4Address(address) then None else Some(QueryFor(ReverseLabels(address), TYPE_PTR, id))
  }

  // ---------------------------------------------------------------- answers

  datatype Answer = Answer(rcode: nat, truncated: bool, aRecords: seq<BS.ARecord>, ptrNames: seq<string>)

  /** Skips `n` questions; None when one of them cannot be read. */
  function SkipQuestions(b: Buffer, off: nat, n: nat): Option<nat>
    decreases n
  {
    if n == 0 then Some(off)
    else match NameAt(b, off)
      case None => None
      case Some(name) => if name.next + 4 > |b| then None else SkipQuestions(b, name.next + 4, n - 1)
  }

  datatype Records = Records(aRecords: seq<BS.ARecord>, ptrNames: seq<string>)

  /** A resource record's fixed part and data, when all of it is there. */
  datatype Rr = Rr(rtype: nat, ttl: nat, dataStart: nat, dataLength: nat)

  function RecordAt(b: Buffer, off: nat): (r: Option<Rr>)
    ensures r.Some? ==> off < r.value.dataStart && r.value.dataStart + r.value.dataLength <= |b|
  {
    match NameAt(b, off)
    case None => None
    case Some(name) =>
      if name.next + 10 > |b| then None
      else
        var length := U16(b, name.next + 8);
        if name.next + 10 + length > |b| then None
        else Some(Rr(U16(b, name.next), U32(b, name.next + 4), name.next + 10, length))
  }

  function ARecordsIn(b: Buffer, rr: Rr): seq<BS.ARecord>
    requires rr.dataStart + rr.dataLength <= |b|
  {
    if rr.rtype == TYPE_A && rr.dataLength == 4 then
      var o := b[rr.dataStart..rr.dataStart + 4];
      [BS.ARecord(RenderIpv4([o[0], o[1], o[2], o[3]]), rr.ttl)]
    else []
  }

  function PtrNamesIn(b: Buffer, rr: Rr): seq<string>
    requires rr.dataStart + rr.dataLength <= |b|
  {
    if rr.rtype != TYPE_PTR then []
    else match NameAt(b, rr.dataStart)
      case Some(target) => if |target.name| > 0 then [target.name] else []
      case None => []
  }

  /** Reads up to `n` records, stopping at the first that is not all there. */
  function RecordsFrom(b: Buffer, off: nat, n: nat): Records
    decreases n
  {
    if n == 0 then Records([], [])
    else match RecordAt(b, off)
      case None => Records([], [])
      case Some(rr) =>
        var rest := RecordsFrom(b, rr.dataStart + rr.dataLength, n - 1);
        Records(ARecordsIn(b, rr) + rest.aRecords, PtrNamesIn(b, rr) + rest.ptrNames)
  }

  function AnswerOf(b: Buffer): Option<Answer> {
    if |b| < HEADER_LENGTH then None
    else match SkipQuestions(b, HEADER_LENGTH, U16(b, 4))
      case None => None
      case Some(off) =>
        var records := RecordsFrom(b, off, U16(b, 6));
        Some(Answer(b[3] % 16, (b[2] / 2) % 2 == 1, records.aRecords, records.ptrNames))
  }

  method ParseAnswer(buffer: Buffer) returns (r: Option<Answer>)
    ensures r == AnswerOf(buffer)
  {
    if |buffer| < HEADER_LENGTH {
      return None;
    }
    var rcode, truncated := buffer[3] % 16, (buffer[2] / 2) % 2 == 1;
    var offset := ReadQuestions(buffer, U16(buffer, 4));
    if offset.None? {
      return None;
    }
    var records := ReadRecords(buffer, offset.value, U16(buffer, 6));
    return Some(Answer(rcode, truncated, records.aRecords, records.ptrNames));
  }

  /** The loop over the question section. */
  method ReadQuestions(buffer: Buffer, questionCount: nat) returns (r: Option<nat>)
    requires |buffer| >= HEADER_LENGTH
    ensures r == SkipQuestions(buffer, HEADER_LENGTH, questionCount)
  {
    var offset: nat := HEADER_LENGTH;
    for index := 0 to questionCount
      invariant SkipQuestions(buffer, HEADER_LENGTH, questionCount)
                == SkipQuestions(buffer, offset, questionCount - index)
    {
      var name := ReadName(buffer, offset);
      if name.None? || name.value.next + 4 > |buffer| {
        return None;
      }
      offset := name.value.next + 4;
    }
    return Some(offset);
  }

  /** The loop over the answer section. */
  method ReadRecords(buffer: Buffer, start: nat, answerCount: nat) returns (r: Records)
    ensures r == RecordsFrom(buffer, start, answerCount)
  {
    hide NameAt, ARecordsIn, PtrNamesIn, RenderIpv4, RecordAt;
    var offset: nat := start;
    r := Records([], []);
    ghost var all := RecordsFrom(buffer, start, answerCount);
    assert all == Records([] + all.aRecords, [] + all.ptrNames);
    for index := 0 to answerCount
      invariant var rest := RecordsFrom(buffer, offset, answerCount - index);
                all == Records(r.aRecords + rest.aRecords, r.ptrNames + rest.ptrNames)
    {
      var record := ReadRecord(buffer, offset);
      if record.None? {
        return;
      }
      var rr := record.value;
      ghost var rest := RecordsFrom(buffer, rr.dataStart + rr.dataLength, answerCount - index - 1);
      var a, names := ReadData(buffer, rr);
      assert r.aRecords + (a + rest.aRecords) == r.aRecords + a + rest.aRecords;
      assert r.ptrNames + (names + rest.ptrNames) == r.ptrNames + names + rest.ptrNames;
      r := Records(r.aRecords + a, r.ptrNames + names);
      offset := rr.dataStart + rr.dataLength;
    }
  }

  method ReadRecord(buffer: Buffer, offset: nat) returns (r: Option<Rr>)
    ensures r == RecordAt(buffer, offset)
  {
    var name := ReadName(buffer, offset);
    if name.None? || name.value.next + 10 > |buffer| {
      return None;
    }
    var next := name.value.next;
    var rtype, ttl, dataLength := U16(buffer, next), U32(buffer, next + 4), U16(buffer, next + 8);
    var dataStart := next + 10;
    if dataStart + dataLength > |buffer| {
      return None;
    }
    return Some(Rr(rtype, ttl, dataStart, dataLength));
  }

  method ReadData(buffer: Buffer, rr: Rr) returns (aRecords: seq<BS.ARecord>, ptrNames: seq<string>)
    requires rr.dataStart + rr.dataLength <= |buffer|
    ensures aRecords == ARecordsIn(buffer, rr) && ptrNames == PtrNamesIn(buffer, rr)
  {
    aRecords, ptrNames := [], [];
    if rr.rtype == TYPE_A && rr.dataLength == 4 {
      var o := buffer[rr.dataStart..rr.dataStart + 4];
      aRecords := [BS.ARecord(RenderIpv4([o[0], o[1], o[2], o[3]]), rr.ttl)];
    }
    if rr.rtype == TYPE_PTR {
      var target := ReadName(buffer, rr.dataStart);
      if target.Some? && |target.value.name| > 0 {
        ptrNames := [target.value.name];
      }
    }
  }

  // ---------------------------------------------------------------- replies made from a query

  /** Keeps id and question; sets QR and RA, copies RD, and leaves no records. */
  function BuildErrorResponse(query: Buffer, question: Question, rcode: nat): (r: Buffer)
    requires HEADER_LENGTH <= question.questionEnd <= |query| && rcode < 16
    ensures |r| == question.questionEnd
  {
    query[..2] + [0x80 + query[2] % 2, 0x80 + rcode] + [0, 1, 0, 0, 0, 0, 0, 0] + query[12..question.questionEnd]
  }

  function BuildServfail(query: Buffer, question: Question): Buffer
    requires HEADER_LENGTH <= question.questionEnd <= |query|
  {
    BuildErrorResponse(query, question, RCODE_SERVFAIL)
  }

  function BuildNxdomain(query: Buffer, question: Question): Buffer
    requires HEADER_LENGTH <= question.questionEnd <= |query|
  {
    BuildErrorResponse(query, question, RCODE_NXDOMAIN)
  }

  function WithTc(flags: Byte): Byte {
    if (flags / 2) % 2 == 1 then flags else flags + 2
  }

  /** Keeps header and question of an oversized response, sets TC and clears the record counts. */
  function TruncateForUdp(response: Buffer, question: Question, limit: nat): Buffer
    requires HEADER_LENGTH <= question.questionEnd && HEADER_LENGTH <= limit
  {
    if |response| <= limit then response
    else
      var end := if question.questionEnd < |response| then question.questionEnd else |response|;
      response[..2] + [WithTc(response[2])] + response[3..6] + [0, 0, 0, 0, 0, 0] + response[12..end]
  }

  function UdpLimitFor(question: Question): nat {
    if question.additionalCount > 0 then 1232 else 512
  }

  // ---------------------------------------------------------------- the same, written into buffers

  /** `writeUInt16BE`. */
  method WriteU16(b: array<Byte>, v: nat, i: nat)
    requires i + 2 <= b.Length && v < 0x1_0000
    modifies b
    ensures b[..] == old(b[..])[i := v / 0x100][i + 1 := v % 0x100]
  {
    b[i] := v / 0x100;
    b[i + 1] := v % 0x100;
  }

  method CopyOf(bytes: Buffer) returns (b: array<Byte>)
    ensures fresh(b) && b[..] == bytes
  {
    b := new Byte[|bytes|];
    for i := 0 to |bytes|
      invariant b[..i] == bytes[..i]
    {
      b[i] := bytes[i];
    }
    assert b[..] == b[..|bytes|] && bytes[..|bytes|] == bytes;
  }

  /** The four counts of a header: what is written over them, and where. */
  lemma Overwritten(b: Buffer, flags: nat, n: nat)
    requires |b| >= HEADER_LENGTH && flags < 0x1_0000 && n < 0x1_0000
    ensures b[2 := flags / 0x100][3 := flags % 0x100][4 := n / 0x100][5 := n % 0x100][6 := 0][7 := 0][8 := 0][9 := 0][10 := 0][11 := 0]
            == b[..2] + Bytes16(flags) + Bytes16(n) + [0, 0, 0, 0, 0, 0] + b[12..]
  {
  }

  method WriteErrorResponse(query: Buffer, question: Question, rcode: nat) returns (response: array<Byte>)
    requires HEADER_LENGTH <= question.questionEnd <= |query| && rcode < 16
    ensures fresh(response) && response[..] == BuildErrorResponse(query, question, rcode)
  {
    response := CopyOf(query[..question.questionEnd]);
    var recursionDesired := (query[2] as int % 2) * 0x100;
    var flags := 0x8000 + recursionDesired + 0x80 + rcode;
    WriteU16(response, flags, 2);
    WriteU16(response, 1, 4);
    WriteU16(response, 0, 6);
    WriteU16(response, 0, 8);
    WriteU16(response, 0, 10);
    Overwritten(query[..question.questionEnd], flags, 1);
    assert flags / 0x100 == 0x80 + query[2] % 2 && flags % 0x100 == 0x80 + rcode;
    assert query[..question.questionEnd][12..] == query[12..question.questionEnd];
    assert query[..question.questionEnd][..2] == query[..2];
  }

  method WriteTruncated(response: Buffer, question: Question, limit: nat) returns (r: Buffer)
    requires HEADER_LENGTH <= question.questionEnd && HEADER_LENGTH <= limit
    ensures r == TruncateForUdp(response, question, limit)
  {
    if |response| <= limit {
      return response;
    }
    var end := if question.questionEnd < |response| then question.questionEnd else |response|;
    var truncated := CopyOf(response[..end]);
    WriteU16(truncated, (WithTc(truncated[2]) as int) * 0x100 + truncated[3] as int, 2);
    WriteU16(truncated, 0, 6);
    WriteU16(truncated, 0, 8);
    WriteU16(truncated, 0, 10);
    r := truncated[..];
    assert r[12..] == response[12..end];
    assert r == r[..2] + [r[2]] + r[3..6] + r[6..12] + r[12..];
  }
}
