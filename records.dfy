/** Question and resource-record entries (sections 4.1.2 and 4.1.3 of RFC 1035) and the Answer wrapper. */
module Records {
  import opened Binary
  import opened Wrappers
  import opened Names

  datatype Question = Question(labels: seq<Label>, qtype: uint16, qclass: uint16)

  /** A resource record; RDATA is always a single 32-bit value. */
  datatype RR = RR(name: seq<Label>, rtype: uint16, rclass: uint16, ttl: uint32, rdLength: uint16, rdata: uint32)

  /** An answer entry wraps a list of records. */
  datatype Answer = Answer(rrs: seq<RR>)

  /** The name, then Type and Class, big-endian. */
  function QuestionWire(q: Question): seq<byte>
  {
    NameWire(q.labels) + Uint16Bytes(q.qtype) + Uint16Bytes(q.qclass)
  }

  /** The 14 fixed bytes of a record: Type, Class, TTL, RDLENGTH and RDATA, big-endian. */
  function RRFields(rr: RR): (r: seq<byte>)
    ensures |r| == 14
  {
    Uint16Bytes(rr.rtype) + Uint16Bytes(rr.rclass) + Uint32Bytes(rr.ttl) +
    Uint16Bytes(rr.rdLength) + Uint32Bytes(rr.rdata)
  }

  /** The name, then the 14 fixed bytes. */
  function RRWire(rr: RR): seq<byte>
  {
    NameWire(rr.name) + RRFields(rr)
  }

  /** The fields read from 14 bytes are written back as the same 14 bytes. */
  lemma {:induction false} RRFieldsOfBytes(name: seq<Label>, data: seq<byte>, k: nat)
    requires k + 14 <= |data|
    ensures RRFields(RR(name, Uint16(data[k..k + 2]), Uint16(data[k + 2..k + 4]), Uint32(data[k + 4..k + 8]),
                        Uint16(data[k + 8..k + 10]), Uint32(data[k + 10..k + 14]))) == data[k..k + 14]
  {
    Uint16Inverse(data[k..k + 2]);
    Uint16Inverse(data[k + 2..k + 4]);
    Uint32Inverse(data[k + 4..k + 8]);
    Uint16Inverse(data[k + 8..k + 10]);
    Uint32Inverse(data[k + 10..k + 14]);
    assert data[k..k + 14] == data[k..k + 2] + data[k + 2..k + 4] + data[k + 4..k + 8] +
                              data[k + 8..k + 10] + data[k + 10..k + 14];
  }

  /** Every record's name survives a round trip. */
  predicate ValidRecords(rrs: seq<RR>)
  {
    forall i :: 0 <= i < |rrs| ==> ValidName(rrs[i].name)
  }

  /** Every record's name is accepted by the packers. */
  predicate PackableRecords(rrs: seq<RR>)
  {
    forall i :: 0 <= i < |rrs| ==> Ascii(rrs[i].name)
  }

  /** Every record, in order, one after another. */
  function RRsWire(rrs: seq<RR>): seq<byte>
  {
    if rrs == [] then [] else RRWire(rrs[0]) + RRsWire(rrs[1..])
  }

  function AnswerWire(a: Answer): seq<byte>
  {
    RRsWire(a.rrs)
  }

  lemma {:induction false} RRsWireAppend(rrs: seq<RR>, rr: RR)
    ensures RRsWire(rrs + [rr]) == RRsWire(rrs) + RRWire(rr)
  {
    if rrs == [] {
      assert RRsWire([rr]) == RRWire(rr) + RRsWire([]);
    } else {
      assert (rrs + [rr])[1..] == rrs[1..] + [rr];
      RRsWireAppend(rrs[1..], rr);
    }
  }

  /** UnpackQuestion: the name, then Type and Class. None where Go would index past the end. */
  function UnpackQuestion(data: seq<byte>): (r: Option<(Question, nat)>)
    ensures r.Some? ==> 0 < r.value.1 <= |data|
  {
    match ParseLabels(data)
    case None => None
    case Some((labels, idx)) =>
      if |data| < idx + 4 then None
      else Some((Question(labels, Uint16(data[idx..idx + 2]), Uint16(data[idx + 2..idx + 4])), idx + 4))
  }

  /** UnpackRR: the name, then the 14 fixed bytes. None where Go would index past the end. */
  function UnpackRR(data: seq<byte>): (r: Option<(RR, nat)>)
    ensures r.Some? ==> 0 < r.value.1 <= |data|
  {
    match ParseLabels(data)
    case None => None
    case Some((labels, idx)) =>
      if |data| < idx + 14 then None
      else
        Some((RR(labels,
                 Uint16(data[idx..idx + 2]),
                 Uint16(data[idx + 2..idx + 4]),
                 Uint32(data[idx + 4..idx + 8]),
                 Uint16(data[idx + 8..idx + 10]),
                 Uint32(data[idx + 10..idx + 14])),
              idx + 14))
  }

  /** UnpackAnswer: always exactly one record, whatever the answer that was packed held. */
  function UnpackAnswer(data: seq<byte>): (r: Option<(Answer, nat)>)
    ensures r.Some? ==> 0 < r.value.1 <= |data| && |r.value.0.rrs| == 1
  {
    match UnpackRR(data)
    case None => None
    case Some((rr, n)) => Some((Answer([rr]), n))
  }

  /** The question read has a valid name, and the bytes consumed are exactly its wire image. */
  lemma {:induction false} UnpackQuestionConsumesWire(data: seq<byte>)
    requires UnpackQuestion(data).Some?
    ensures ValidName(UnpackQuestion(data).value.0.labels)
    ensures data[..UnpackQuestion(data).value.1] == QuestionWire(UnpackQuestion(data).value.0)
  {
    var idx := ParseLabels(data).value.1;
    ParseLabelsConsumesWire(data);
    Uint16Inverse(data[idx..idx + 2]);
    Uint16Inverse(data[idx + 2..idx + 4]);
    TakeSplit(data, idx, idx + 4);
    SliceSplit(data, idx, idx + 2, idx + 4);
  }

  /** The record read has a valid name, and the bytes consumed are exactly its wire image. */
  lemma {:induction false} UnpackRRConsumesWire(data: seq<byte>)
    requires UnpackRR(data).Some?
    ensures ValidName(UnpackRR(data).value.0.name)
    ensures data[..UnpackRR(data).value.1] == RRWire(UnpackRR(data).value.0)
  {
    var labels := ParseLabels(data).value.0;
    var idx := ParseLabels(data).value.1;
    ParseLabelsConsumesWire(data);
    RRFieldsOfBytes(labels, data, idx);
    TakeSplit(data, idx, idx + 14);
  }

  /** The answer read holds one record with a valid name, and the bytes consumed are exactly its wire image. */
  lemma {:induction false} UnpackAnswerConsumesWire(data: seq<byte>)
    requires UnpackAnswer(data).Some?
    ensures ValidRecords(UnpackAnswer(data).value.0.rrs)
    ensures data[..UnpackAnswer(data).value.1] == AnswerWire(UnpackAnswer(data).value.0)
  {
    UnpackRRConsumesWire(data);
    var rr := UnpackRR(data).value.0;
    assert RRsWire([rr]) == RRWire(rr) + RRsWire([]);
  }

  /** A question with a valid name decodes from its wire image, whatever follows, consuming NameLength + 4 bytes. */
  lemma {:induction false} QuestionRoundTrip(q: Question, rest: seq<byte>)
    requires ValidName(q.labels)
    ensures |QuestionWire(q)| == NameLength(q.labels) + 4
    ensures UnpackQuestion(QuestionWire(q) + rest) == Some((q, |QuestionWire(q)|))
  {
    var data := QuestionWire(q) + rest;
    var w := NameWire(q.labels);
    NameWireLength(q.labels);
    assert data == w + (Uint16Bytes(q.qtype) + Uint16Bytes(q.qclass) + rest);
    ParseLabelsRoundTrip(q.labels, Uint16Bytes(q.qtype) + Uint16Bytes(q.qclass) + rest);
    assert data[|w|..|w| + 2] == Uint16Bytes(q.qtype);
    assert data[|w| + 2..|w| + 4] == Uint16Bytes(q.qclass);
    Uint16RoundTrip(q.qtype);
    Uint16RoundTrip(q.qclass);
  }

  /** A record with a valid name decodes from its wire image, whatever follows, consuming NameLength + 14 bytes. */
  lemma {:induction false} RRRoundTrip(rr: RR, rest: seq<byte>)
    requires ValidName(rr.name)
    ensures |RRWire(rr)| == NameLength(rr.name) + 14
    ensures UnpackRR(RRWire(rr) + rest) == Some((rr, |RRWire(rr)|))
  {
    var data := RRWire(rr) + rest;
    var w := NameWire(rr.name);
    NameWireLength(rr.name);
    var fixed := RRFields(rr);
    assert data == w + (fixed + rest);
    ParseLabelsRoundTrip(rr.name, fixed + rest);
    var k := |w|;
    assert data[k..k + 14] == fixed;
    RRFieldsRead(rr, data, k);
  }

  /** The 14 fixed bytes of a record, found at offset k, read back as the record's fields. */
  lemma {:induction false} RRFieldsRead(rr: RR, data: seq<byte>, k: nat)
    requires k + 14 <= |data| && data[k..k + 14] == RRFields(rr)
    ensures Uint16(data[k..k + 2]) == rr.rtype && Uint16(data[k + 2..k + 4]) == rr.rclass
    ensures Uint32(data[k + 4..k + 8]) == rr.ttl
    ensures Uint16(data[k + 8..k + 10]) == rr.rdLength && Uint32(data[k + 10..k + 14]) == rr.rdata
  {
    var f := data[k..k + 14];
    assert data[k..k + 2] == f[0..2] == Uint16Bytes(rr.rtype);
    assert data[k + 2..k + 4] == f[2..4] == Uint16Bytes(rr.rclass) by {
      assert f[2] == Uint16Bytes(rr.rclass)[0] && f[3] == Uint16Bytes(rr.rclass)[1];
    }
    assert data[k + 4..k + 8] == f[4..8] == Uint32Bytes(rr.ttl) by {
      var t := Uint32Bytes(rr.ttl);
      assert f[4] == t[0] && f[5] == t[1] && f[6] == t[2] && f[7] == t[3];
    }
    assert data[k + 8..k + 10] == f[8..10] == Uint16Bytes(rr.rdLength) by {
      assert f[8] == Uint16Bytes(rr.rdLength)[0] && f[9] == Uint16Bytes(rr.rdLength)[1];
    }
    assert data[k + 10..k + 14] == f[10..14] == Uint32Bytes(rr.rdata);
    Uint16RoundTrip(rr.rtype);
    Uint16RoundTrip(rr.rclass);
    Uint32RoundTrip(rr.ttl);
    Uint16RoundTrip(rr.rdLength);
    Uint32RoundTrip(rr.rdata);
  }

  /**
   * Answer.Pack writes every record but UnpackAnswer reads one: decoding a packed answer that
   * holds at least one record gives back an answer holding only its first record.
   */
  lemma {:induction false} AnswerReadsFirstRecord(a: Answer, rest: seq<byte>)
    requires |a.rrs| >= 1
    requires ValidRecords(a.rrs)
    ensures UnpackAnswer(AnswerWire(a) + rest) == Some((Answer([a.rrs[0]]), |RRWire(a.rrs[0])|))
  {
    assert AnswerWire(a) + rest == RRWire(a.rrs[0]) + (RRsWire(a.rrs[1..]) + rest);
    RRRoundTrip(a.rrs[0], RRsWire(a.rrs[1..]) + rest);
  }

  /** An answer round-trips exactly when it holds a single record; an empty one is written as no bytes and never read back. */
  lemma {:induction false} AnswerRoundTrip(a: Answer, rest: seq<byte>)
    requires ValidRecords(a.rrs)
    ensures UnpackAnswer(AnswerWire(a) + rest) == Some((a, |AnswerWire(a)|)) <==> |a.rrs| == 1
  {
    if |a.rrs| >= 1 {
      AnswerReadsFirstRecord(a, rest);
    }
    if |a.rrs| == 1 {
      assert a.rrs[1..] == [];
      assert a.rrs == [a.rrs[0]];
      assert AnswerWire(a) == RRWire(a.rrs[0]) + RRsWire(a.rrs[1..]);
    }
  }

  /** QuestionRoundTrip for an input that merely starts with the wire image. */
  lemma {:induction false} QuestionAt(data: seq<byte>, q: Question)
    requires ValidName(q.labels) && QuestionWire(q) <= data
    ensures UnpackQuestion(data) == Some((q, |QuestionWire(q)|))
  {
    assert data == QuestionWire(q) + data[|QuestionWire(q)|..];
    QuestionRoundTrip(q, data[|QuestionWire(q)|..]);
  }

  /** AnswerRoundTrip for an input that merely starts with the wire image of a one-record answer. */
  lemma {:induction false} AnswerAt(data: seq<byte>, a: Answer)
    requires |a.rrs| == 1 && ValidRecords(a.rrs) && AnswerWire(a) <= data
    ensures UnpackAnswer(data) == Some((a, |AnswerWire(a)|))
  {
    assert data == AnswerWire(a) + data[|AnswerWire(a)|..];
    AnswerRoundTrip(a, data[|AnswerWire(a)|..]);
  }

  /** Question.Pack: the name, then Type and Class, written into a fresh buffer. */
  method PackQuestion(q: Question) returns (buffer: seq<byte>)
    requires Ascii(q.labels)
    ensures buffer == QuestionWire(q)
  {
    buffer := PackName(q.labels);
    buffer := buffer + Uint16Bytes(q.qtype);
    buffer := buffer + Uint16Bytes(q.qclass);
  }

  /** RR.Pack: the name, then the five fixed fields, written into a fresh buffer. */
  method PackRR(rr: RR) returns (buffer: seq<byte>)
    requires Ascii(rr.name)
    ensures buffer == RRWire(rr)
  {
    buffer := PackName(rr.name);
    buffer := buffer + Uint16Bytes(rr.rtype);
    buffer := buffer + Uint16Bytes(rr.rclass);
    buffer := buffer + Uint32Bytes(rr.ttl);
    buffer := buffer + Uint16Bytes(rr.rdLength);
    buffer := buffer + Uint32Bytes(rr.rdata);
  }

  /** Answer.Pack: every record of the answer, in order. */
  method PackAnswer(a: Answer) returns (buffer: seq<byte>)
    requires PackableRecords(a.rrs)
    ensures buffer == AnswerWire(a)
  {
    buffer := [];
    for k := 0 to |a.rrs|
      invariant buffer == RRsWire(a.rrs[..k])
    {
      var b := PackRR(a.rrs[k]);
      RRsWireAppend(a.rrs[..k], a.rrs[k]);
      assert a.rrs[..k + 1] == a.rrs[..k] + [a.rrs[k]];
      buffer := buffer + b;
    }
    assert a.rrs[..|a.rrs|] == a.rrs;
  }
}
