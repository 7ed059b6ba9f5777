/**
 * The responder: turns a decoded query into a canned response that answers every question with
 * the address 8.8.8.8 and reports NOTIMP (RCODE 4) for any operation but a standard query.
 */
module Responder {
  import opened Binary
  import opened Wrappers
  import opened Names
  import opened Header
  import opened Records
  import opened Message

  /** RCODE 0 (no error) for a standard query, 4 (not implemented) for any other OPCODE. */
  function Rcode(opcode: bv8): bv8
  {
    if opcode == 0 then 0 else 4
  }

  /** The response header as Process builds it: ID, OPCODE and RD echoed, QR set, one question and one answer. */
  function ResponseHeader(h: DNSHeader): DNSHeader
  {
    DNSHeader(h.id, 1, h.opcode, 0, 0, h.rd, 0, 0, Rcode(h.opcode), 1, 1, 0, 0)
  }

  /** The question Process echoes: the same name, Type A (1), Class IN (1). */
  function ResponseQuestion(q: Question): Question
  {
    Question(q.labels, 1, 1)
  }

  /** The answer Process gives to a question: one A record for its name, TTL 60, RDATA 8.8.8.8. */
  function ResponseAnswer(q: Question): Answer
  {
    Answer([RR(q.labels, 1, 1, 60, 4, Uint32([8, 8, 8, 8]))])
  }

  /** Process as a function: the header above, then one echoed question and one answer per question QDCOUNT claims. */
  function Respond(query: DNSMessage): DNSMessage
    requires query.header.qdCount <= |query.questions|
  {
    var n := query.header.qdCount;
    DNSMessage(ResponseHeader(query.header),
               seq(n, i requires 0 <= i < n => ResponseQuestion(query.questions[i])),
               seq(n, i requires 0 <= i < n => ResponseAnswer(query.questions[i])))
  }

  /**
   * Process: allocates QDCOUNT questions and answers and fills them in place, one index at a
   * time, from the query's questions.
   */
  method Process(query: DNSMessage) returns (response: DNSMessage)
    requires query.header.qdCount <= |query.questions|
    ensures response == Respond(query)
  {
    var rcode: bv8 := 0;
    if query.header.opcode == 0 {
      rcode := 0;
    } else {
      rcode := 4;
    }
    var header := DNSHeader(query.header.id, 1, query.header.opcode, 0, 0, query.header.rd, 0, 0,
                            rcode, 1, 1, 0, 0);
    var n := query.header.qdCount;
    var questions := new Question[n];
    var answers := new Answer[n];
    for i := 0 to n
      invariant forall j :: 0 <= j < i ==> questions[j] == ResponseQuestion(query.questions[j])
      invariant forall j :: 0 <= j < i ==> answers[j] == ResponseAnswer(query.questions[j])
    {
      questions[i] := Question(query.questions[i].labels, 1, 1);
      answers[i] := Answer([RR(query.questions[i].labels, 1, 1, 60, 4, Uint32([8, 8, 8, 8]))]);
    }
    response := DNSMessage(header, questions[..], answers[..]);
  }

  /**
   * The response header: QR marks a response; ID, OPCODE and RD are the query's; RCODE is 0
   * exactly for a standard query and 4 otherwise; AA, TC, RA, Z, NSCOUNT and ARCOUNT are 0;
   * QDCOUNT and ANCOUNT are 1 whatever the query held; and it is valid when the query's is.
   */
  lemma {:induction false} ResponseHeaderFields(h: DNSHeader)
    ensures ResponseHeader(h).qr == 1
    ensures ResponseHeader(h).id == h.id && ResponseHeader(h).opcode == h.opcode && ResponseHeader(h).rd == h.rd
    ensures ResponseHeader(h).rcode == 0 <==> h.opcode == 0
    ensures h.opcode != 0 ==> ResponseHeader(h).rcode == 4
    ensures ResponseHeader(h).aa == 0 && ResponseHeader(h).tc == 0 && ResponseHeader(h).ra == 0 && ResponseHeader(h).z == 0
    ensures ResponseHeader(h).qdCount == 1 && ResponseHeader(h).anCount == 1
    ensures ResponseHeader(h).nsCount == 0 && ResponseHeader(h).arCount == 0
    ensures ValidHeader(h) ==> ValidHeader(ResponseHeader(h))
  {
  }

  /** The 8 bits QR, OPCODE, AA, TC and RD of a response: 0x80, the OPCODE shifted past AA, TC and RD, then RD. */
  lemma {:induction false} ResponseFlagsHigh(h: DNSHeader)
    requires h.opcode < 16 && h.rd < 2
    ensures FlagsHigh(ResponseHeader(h)) as byte == 0x80 + (h.opcode as int) * 8 + h.rd as int
  {
    var op, rd := h.opcode, h.rd;
    assert FlagsHigh(ResponseHeader(h)) == 0x80 | (op << 3) | rd;
    assert (0x80 | (op << 3) | rd) as int == 0x80 + (op as int) * 8 + rd as int by {
      assert 0x80 | (op << 3) | rd == 0x80 + op * 8 + rd;
    }
  }

  /**
   * The 12 bytes of a response header on the wire: the query's ID, the flag byte with QR set,
   * RCODE in the low bits of the next, then QDCOUNT = ANCOUNT = 1 and zero NSCOUNT and ARCOUNT.
   */
  lemma {:induction false} ResponseHeaderWire(h: DNSHeader)
    requires h.opcode < 16 && h.rd < 2
    ensures HeaderWire(ResponseHeader(h)) ==
      Uint16Bytes(h.id) + [0x80 + (h.opcode as int) * 8 + h.rd as int, if h.opcode == 0 then 0 else 4] +
      [0, 1, 0, 1, 0, 0, 0, 0]
  {
    ResponseFlagsHigh(h);
    assert FlagsLow(ResponseHeader(h)) == Rcode(h.opcode);
  }

  /** 8.8.8.8 read as a big-endian 32-bit integer. */
  lemma {:induction false} GoogleAddress()
    ensures Uint32([8, 8, 8, 8]) == 0x0808_0808
  {
    assert [8, 8, 8, 8][0..2] == [8, 8] && [8, 8, 8, 8][2..4] == [8, 8];
  }

  /**
   * The response body: exactly QDCOUNT questions and as many answers; the i-th question keeps
   * the i-th query's name with Type and Class 1, and the i-th answer holds one record for that
   * name with Type and Class 1, TTL 60, RDLENGTH 4 and RDATA 0x08080808.
   */
  lemma {:induction false} ResponseBody(query: DNSMessage)
    requires query.header.qdCount <= |query.questions|
    ensures |Respond(query).questions| == query.header.qdCount
    ensures |Respond(query).answers| == query.header.qdCount
    ensures forall i :: 0 <= i < query.header.qdCount ==>
      Respond(query).questions[i] == Question(query.questions[i].labels, 1, 1)
    ensures forall i :: 0 <= i < query.header.qdCount ==>
      Respond(query).answers[i] == Answer([RR(query.questions[i].labels, 1, 1, 60, 4, 0x0808_0808)])
  {
    GoogleAddress();
  }

  /** The response to a valid query is valid exactly when the query had one question. */
  lemma {:induction false} ResponseValid(query: DNSMessage)
    requires ValidMessage(query)
    ensures ValidMessage(Respond(query)) <==> query.header.qdCount == 1
  {
    var r := Respond(query);
    ResponseHeaderFields(query.header);
    if query.header.qdCount == 1 {
      assert ValidName(query.questions[0].labels);
      assert r.questions[0].labels == query.questions[0].labels;
      assert r.answers[0].rrs[0].name == query.questions[0].labels;
    }
  }

  /**
   * Decoding the packed response to a valid query gives the response back exactly when the query
   * had one question: with any other count the header claims one question and one answer while
   * the body carries QDCOUNT of each.
   */
  lemma {:induction false} ResponseRoundTrip(query: DNSMessage)
    requires ValidMessage(query)
    ensures DecodeMessage(MessageWire(Respond(query))) == Some(Respond(query)) <==> query.header.qdCount == 1
  {
    var r := Respond(query);
    ResponseValid(query);
    if query.header.qdCount == 1 {
      MessageRoundTrip(r, []);
      assert MessageWire(r) + [] == MessageWire(r);
    } else if DecodeMessage(MessageWire(r)).Some? {
      DecodedIsValid(MessageWire(r));
    }
  }

  /** A query for the names a and b: two valid questions, QDCOUNT 2. */
  function TwoQuestionQuery(): DNSMessage
  {
    DNSMessage(DNSHeader(1234, 0, 0, 0, 0, 1, 0, 0, 0, 2, 0, 0, 0),
               [Question([[0x61]], 1, 1), Question([[0x62]], 1, 1)], [])
  }

  /** The response Process gives to the two-question query does not survive its own wire format. */
  lemma {:induction false} TwoQuestionResponseMisread()
    ensures DecodeMessage(MessageWire(Respond(TwoQuestionQuery()))) != Some(Respond(TwoQuestionQuery()))
  {
    var query := TwoQuestionQuery();
    assert ValidQuestions(query.questions);
    ResponseRoundTrip(query);
  }

  /** The evidently intended response: the same body, with QDCOUNT and ANCOUNT equal to the number of questions answered. */
  function CountedResponse(query: DNSMessage): DNSMessage
    requires query.header.qdCount <= |query.questions|
  {
    var r := Respond(query);
    r.(header := r.header.(qdCount := query.header.qdCount, anCount := query.header.qdCount))
  }

  /** The corrected response to any valid query is valid, so it decodes back from its wire image. */
  lemma {:induction false} CountedResponseRoundTrip(query: DNSMessage)
    requires ValidMessage(query)
    ensures ValidMessage(CountedResponse(query))
    ensures DecodeMessage(MessageWire(CountedResponse(query))) == Some(CountedResponse(query))
  {
    var r := CountedResponse(query);
    ResponseHeaderFields(query.header);
    assert forall i :: 0 <= i < |r.questions| ==> r.questions[i].labels == query.questions[i].labels;
    assert forall i :: 0 <= i < |r.answers| ==> r.answers[i].rrs == [RR(query.questions[i].labels, 1, 1, 60, 4, Uint32([8, 8, 8, 8]))];
    MessageRoundTrip(r, []);
    assert MessageWire(r) + [] == MessageWire(r);
  }

  /** Every query Unpack can produce meets Process's demand that QDCOUNT questions be present. */
  lemma {:induction false} DecodedQueryProcessable(data: seq<byte>)
    requires DecodeMessage(data).Some?
    ensures DecodeMessage(data).value.header.qdCount == |DecodeMessage(data).value.questions|
  {
    DecodedIsValid(data);
  }
}
