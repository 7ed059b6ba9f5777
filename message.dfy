/** A whole DNS message: header, question section and answer section (section 4.1 of RFC 1035). */
module Message {
  import opened Binary
  import opened Wrappers
  import opened Names
  import opened Header
  import opened Records

  datatype DNSMessage = DNSMessage(header: DNSHeader, questions: seq<Question>, answers: seq<Answer>)

  /** Every question, in order, one after another. */
  function QuestionsWire(qs: seq<Question>): seq<byte>
  {
    if qs == [] then [] else QuestionWire(qs[0]) + QuestionsWire(qs[1..])
  }

  /** Every answer, in order, one after another. */
  function AnswersWire(answers: seq<Answer>): seq<byte>
  {
    if answers == [] then [] else AnswerWire(answers[0]) + AnswersWire(answers[1..])
  }

  /** The wire image of a message: the header, then the questions, then the answers. */
  function MessageWire(m: DNSMessage): seq<byte>
  {
    HeaderWire(m.header) + QuestionsWire(m.questions) + AnswersWire(m.answers)
  }

  /** Every name in the message is accepted by the packers. */
  predicate PackableMessage(m: DNSMessage)
  {
    (forall i :: 0 <= i < |m.questions| ==> Ascii(m.questions[i].labels)) &&
    (forall i :: 0 <= i < |m.answers| ==> PackableRecords(m.answers[i].rrs))
  }

  /** Every question's name survives a round trip. */
  predicate ValidQuestions(qs: seq<Question>)
  {
    forall i :: 0 <= i < |qs| ==> ValidName(qs[i].labels)
  }

  /** Every answer holds exactly one record, whose name survives a round trip. */
  predicate ValidAnswers(answers: seq<Answer>)
  {
    forall i :: 0 <= i < |answers| ==> |answers[i].rrs| == 1 && ValidRecords(answers[i].rrs)
  }

  /**
   * The messages that survive a round trip: flags within their widths, the counts equal to the
   * section lengths, every answer holding one record, and every name valid.
   */
  predicate ValidMessage(m: DNSMessage)
  {
    ValidHeader(m.header) &&
    |m.questions| == m.header.qdCount && |m.answers| == m.header.anCount &&
    ValidQuestions(m.questions) && ValidAnswers(m.answers)
  }

  lemma {:induction false} QuestionsWireAppend(qs: seq<Question>, q: Question)
    ensures QuestionsWire(qs + [q]) == QuestionsWire(qs) + QuestionWire(q)
  {
    if qs == [] {
      assert QuestionsWire([q]) == QuestionWire(q) + QuestionsWire([]);
    } else {
      assert (qs + [q])[0] == qs[0] && (qs + [q])[1..] == qs[1..] + [q];
      assert QuestionsWire(qs + [q]) == QuestionWire(qs[0]) + QuestionsWire(qs[1..] + [q]);
      QuestionsWireAppend(qs[1..], q);
    }
  }

  lemma {:induction false} AnswersWireAppend(answers: seq<Answer>, a: Answer)
    ensures AnswersWire(answers + [a]) == AnswersWire(answers) + AnswerWire(a)
  {
    if answers == [] {
      assert AnswersWire([a]) == AnswerWire(a) + AnswersWire([]);
    } else {
      assert (answers + [a])[0] == answers[0] && (answers + [a])[1..] == answers[1..] + [a];
      assert AnswersWire(answers + [a]) == AnswerWire(answers[0]) + AnswersWire(answers[1..] + [a]);
      AnswersWireAppend(answers[1..], a);
    }
  }

  /**
   * The question loop of Unpack as a function: reads count questions from the bytes d, each from
   * where the previous one ended; returns them and the number of bytes they took.
   */
  function QuestionsFrom(d: seq<byte>, count: nat): (r: Option<(seq<Question>, nat)>)
    ensures r.Some? ==> |r.value.0| == count && r.value.1 <= |d|
    decreases count
  {
    if count == 0 then Some(([], 0))
    else
      match UnpackQuestion(d)
      case None => None
      case Some((q, n)) =>
        match QuestionsFrom(d[n..], count - 1)
        case None => None
        case Some((qs, m)) => Some(([q] + qs, n + m))
  }

  /** The answer loop of Unpack as a function, in the same way. */
  function AnswersFrom(d: seq<byte>, count: nat): (r: Option<(seq<Answer>, nat)>)
    ensures r.Some? ==> |r.value.0| == count && r.value.1 <= |d|
    decreases count
  {
    if count == 0 then Some(([], 0))
    else
      match UnpackAnswer(d)
      case None => None
      case Some((a, n)) =>
        match AnswersFrom(d[n..], count - 1)
        case None => None
        case Some((answers, m)) => Some(([a] + answers, n + m))
  }

  /** A valid question in front of valid questions: all are valid and their wire image is the concatenation. */
  lemma {:induction false} QuestionsCons(q: Question, qs: seq<Question>)
    requires ValidName(q.labels) && ValidQuestions(qs)
    ensures ValidQuestions([q] + qs)
    ensures QuestionsWire([q] + qs) == QuestionWire(q) + QuestionsWire(qs)
  {
    assert ([q] + qs)[1..] == qs;
  }

  /** A valid one-record answer in front of valid answers, in the same way. */
  lemma {:induction false} AnswersCons(a: Answer, answers: seq<Answer>)
    requires |a.rrs| == 1 && ValidRecords(a.rrs) && ValidAnswers(answers)
    ensures ValidAnswers([a] + answers)
    ensures AnswersWire([a] + answers) == AnswerWire(a) + AnswersWire(answers)
  {
    assert ([a] + answers)[1..] == answers;
  }

  /**
   * A successful read of count > 0 questions: the first, valid, is read from the first n bytes of
   * d, which are its wire image, then the rest from where it ended.
   */
  lemma {:induction false} QuestionsFromUnfold(d: seq<byte>, count: nat) returns (q: Question, n: nat, qs: seq<Question>, m: nat)
    requires 0 < count && QuestionsFrom(d, count).Some?
    ensures n <= |d| && ValidName(q.labels) && d[..n] == QuestionWire(q)
    ensures QuestionsFrom(d[n..], count - 1) == Some((qs, m))
    ensures QuestionsFrom(d, count) == Some(([q] + qs, n + m)) && n + m <= |d|
  {
    UnpackQuestionConsumesWire(d);
    q, n := UnpackQuestion(d).value.0, UnpackQuestion(d).value.1;
    qs, m := QuestionsFrom(d[n..], count - 1).value.0, QuestionsFrom(d[n..], count - 1).value.1;
  }

  /** The first n bytes of d are the image of q, the next m those of qs: the first n + m are the image of both. */
  lemma {:induction false} QuestionsConsumeStep(d: seq<byte>, q: Question, n: nat, tail: seq<Question>, k: nat,
                                                qs: seq<Question>, m: nat)
    requires n + k <= |d| && ValidName(q.labels) && d[..n] == QuestionWire(q)
    requires ValidQuestions(tail) && d[n..][..k] == QuestionsWire(tail)
    requires qs == [q] + tail && m == n + k
    ensures ValidQuestions(qs) && d[..m] == QuestionsWire(qs)
  {
    QuestionsCons(q, tail);
    TakeConcat(d, n, k, QuestionWire(q), QuestionsWire(tail));
  }

  /** The questions read are valid, and the bytes they took are exactly their wire image. */
  lemma {:induction false} QuestionsFromConsumesWire(d: seq<byte>, count: nat, qs: seq<Question>, m: nat)
    requires QuestionsFrom(d, count) == Some((qs, m))
    ensures ValidQuestions(qs) && d[..m] == QuestionsWire(qs)
    decreases count
  {
    if count > 0 {
      var q, n, tail, k := QuestionsFromUnfold(d, count);
      QuestionsFromConsumesWire(d[n..], count - 1, tail, k);
      QuestionsConsumeStep(d, q, n, tail, k, qs, m);
    }
  }

  /**
   * A successful read of count > 0 answers: the first, one valid record, is read from the first n
   * bytes of d, which are its wire image, then the rest from where it ended.
   */
  lemma {:induction false} AnswersFromUnfold(d: seq<byte>, count: nat) returns (a: Answer, n: nat, answers: seq<Answer>, m: nat)
    requires 0 < count && AnswersFrom(d, count).Some?
    ensures n <= |d| && |a.rrs| == 1 && ValidRecords(a.rrs) && d[..n] == AnswerWire(a)
    ensures AnswersFrom(d[n..], count - 1) == Some((answers, m))
    ensures AnswersFrom(d, count) == Some(([a] + answers, n + m)) && n + m <= |d|
  {
    UnpackAnswerConsumesWire(d);
    a, n := UnpackAnswer(d).value.0, UnpackAnswer(d).value.1;
    answers, m := AnswersFrom(d[n..], count - 1).value.0, AnswersFrom(d[n..], count - 1).value.1;
  }

  /** The first n bytes of d are the image of a, the next m those of answers: the first n + m are the image of both. */
  lemma {:induction false} AnswersConsumeStep(d: seq<byte>, a: Answer, n: nat, tail: seq<Answer>, k: nat,
                                              answers: seq<Answer>, m: nat)
    requires n + k <= |d| && |a.rrs| == 1 && ValidRecords(a.rrs) && d[..n] == AnswerWire(a)
    requires ValidAnswers(tail) && d[n..][..k] == AnswersWire(tail)
    requires answers == [a] + tail && m == n + k
    ensures ValidAnswers(answers) && d[..m] == AnswersWire(answers)
  {
    AnswersCons(a, tail);
    TakeConcat(d, n, k, AnswerWire(a), AnswersWire(tail));
  }

  /** The answers read are valid, and the bytes they took are exactly their wire image. */
  lemma {:induction false} AnswersFromConsumesWire(d: seq<byte>, count: nat, answers: seq<Answer>, m: nat)
    requires AnswersFrom(d, count) == Some((answers, m))
    ensures ValidAnswers(answers) && d[..m] == AnswersWire(answers)
    decreases count
  {
    if count > 0 {
      var a, n, tail, k := AnswersFromUnfold(d, count);
      AnswersFromConsumesWire(d[n..], count - 1, tail, k);
      AnswersConsumeStep(d, a, n, tail, k, answers, m);
    }
  }

  /**
   * Unpack as a function: the header from the first 12 bytes, then QDCOUNT questions from offset
   * 12 and ANCOUNT answers from where the questions ended. None where Go would index past the end.
   */
  function DecodeMessage(data: seq<byte>): (r: Option<DNSMessage>)
  {
    if |data| < 12 then None
    else
      var h := UnpackDNSHeader(data[..12]).value;
      match QuestionsFrom(data[12..], h.qdCount)
      case None => None
      case Some((qs, n)) =>
        match AnswersFrom(data[12 + n..], h.anCount)
        case None => None
        case Some((answers, _)) => Some(DNSMessage(h, qs, answers))
  }

  /** The pieces a successful DecodeMessage read: the header, then n bytes of questions, then m bytes of answers. */
  lemma {:induction false} DecodedSections(data: seq<byte>)
    returns (h: DNSHeader, qs: seq<Question>, n: nat, answers: seq<Answer>, m: nat)
    requires DecodeMessage(data).Some?
    ensures 12 + n + m <= |data| && ValidHeader(h) && data[..12] == HeaderWire(h)
    ensures |qs| == h.qdCount && |answers| == h.anCount
    ensures QuestionsFrom(data[12..], h.qdCount) == Some((qs, n))
    ensures AnswersFrom(data[12 + n..], h.anCount) == Some((answers, m))
    ensures DecodeMessage(data) == Some(DNSMessage(h, qs, answers))
  {
    h := UnpackDNSHeader(data[..12]).value;
    qs, n := QuestionsFrom(data[12..], h.qdCount).value.0, QuestionsFrom(data[12..], h.qdCount).value.1;
    answers, m := AnswersFrom(data[12 + n..], h.anCount).value.0, AnswersFrom(data[12 + n..], h.anCount).value.1;
  }

  /** A decoded message is valid, and it was read from a prefix of the input that is exactly its wire image. */
  lemma {:induction false} DecodedIsValid(data: seq<byte>)
    requires DecodeMessage(data).Some?
    ensures ValidMessage(DecodeMessage(data).value)
    ensures MessageWire(DecodeMessage(data).value) <= data
  {
    var h, qs, n, answers, m := DecodedSections(data);
    QuestionsFromConsumesWire(data[12..], h.qdCount, qs, n);
    AnswersFromConsumesWire(data[12 + n..], h.anCount, answers, m);
    DecodedLayout(data, DNSMessage(h, qs, answers), n, m);
  }

  /** Bytes that start with a header image, then n bytes of question images, then m of answer images. */
  lemma {:induction false} DecodedLayout(data: seq<byte>, msg: DNSMessage, n: nat, m: nat)
    requires 12 + n + m <= |data| && data[..12] == HeaderWire(msg.header)
    requires data[12..][..n] == QuestionsWire(msg.questions)
    requires data[12 + n..][..m] == AnswersWire(msg.answers)
    ensures MessageWire(msg) <= data
  {
    assert data[..12 + n + m] == data[..12] + data[12..][..n] + data[12 + n..][..m];
  }

  /** Valid questions d starts with: the rest of them start right after the first. */
  lemma {:induction false} QuestionsTailAt(d: seq<byte>, qs: seq<Question>)
    requires ValidQuestions(qs) && qs != [] && QuestionsWire(qs) <= d
    ensures ValidQuestions(qs[1..]) && |QuestionWire(qs[0])| <= |d|
    ensures QuestionsWire(qs[1..]) <= d[|QuestionWire(qs[0])|..]
  {
    assert forall i :: 0 <= i < |qs[1..]| ==> qs[1..][i] == qs[i + 1];
    SplitAt(d, QuestionWire(qs[0]), QuestionsWire(qs[1..]));
  }

  /** Valid answers d starts with: the rest of them start right after the first. */
  lemma {:induction false} AnswersTailAt(d: seq<byte>, answers: seq<Answer>)
    requires ValidAnswers(answers) && answers != [] && AnswersWire(answers) <= d
    ensures ValidAnswers(answers[1..]) && |AnswerWire(answers[0])| <= |d|
    ensures AnswersWire(answers[1..]) <= d[|AnswerWire(answers[0])|..]
  {
    assert forall i :: 0 <= i < |answers[1..]| ==> answers[1..][i] == answers[i + 1];
    SplitAt(d, AnswerWire(answers[0]), AnswersWire(answers[1..]));
  }

  /**
   * Valid questions d starts with: the first is read back from d, taking n bytes, and the rest of
   * them start right after it.
   */
  lemma {:induction false} QuestionHeadAt(d: seq<byte>, qs: seq<Question>) returns (n: nat)
    requires ValidQuestions(qs) && qs != [] && QuestionsWire(qs) <= d
    ensures n <= |d| && UnpackQuestion(d) == Some((qs[0], n))
    ensures ValidQuestions(qs[1..]) && QuestionsWire(qs[1..]) <= d[n..]
    ensures n + |QuestionsWire(qs[1..])| == |QuestionsWire(qs)|
  {
    var w, ws := QuestionWire(qs[0]), QuestionsWire(qs[1..]);
    assert QuestionsWire(qs) == w + ws;
    SplitAt(d, w, ws);
    QuestionAt(d, qs[0]);
    QuestionsTailAt(d, qs);
    n := |w|;
  }

  /**
   * Valid answers d starts with: the first is read back from d, taking n bytes, and the rest of
   * them start right after it.
   */
  lemma {:induction false} AnswerHeadAt(d: seq<byte>, answers: seq<Answer>) returns (n: nat)
    requires ValidAnswers(answers) && answers != [] && AnswersWire(answers) <= d
    ensures n <= |d| && UnpackAnswer(d) == Some((answers[0], n))
    ensures ValidAnswers(answers[1..]) && AnswersWire(answers[1..]) <= d[n..]
    ensures n + |AnswersWire(answers[1..])| == |AnswersWire(answers)|
  {
    var w, ws := AnswerWire(answers[0]), AnswersWire(answers[1..]);
    assert AnswersWire(answers) == w + ws;
    SplitAt(d, w, ws);
    AnswerAt(d, answers[0]);
    AnswersTailAt(d, answers);
    n := |w|;
  }

  /**
   * One step of the question loop: a question read from d taking n bytes, followed by the questions
   * tail read from the bytes after it taking m, make all of [q] + tail read from d, taking n + m.
   */
  lemma {:induction false} QuestionsFromStep(d: seq<byte>, q: Question, n: nat, tail: seq<Question>, m: nat, all: seq<Question>, total: nat)
    requires n <= |d| && UnpackQuestion(d) == Some((q, n))
    requires QuestionsFrom(d[n..], |tail|) == Some((tail, m))
    requires all == [q] + tail && total == n + m
    ensures QuestionsFrom(d, |all|) == Some((all, total))
  {
  }

  /** One step of the answer loop, in the same way. */
  lemma {:induction false} AnswersFromStep(d: seq<byte>, a: Answer, n: nat, tail: seq<Answer>, m: nat, all: seq<Answer>, total: nat)
    requires n <= |d| && UnpackAnswer(d) == Some((a, n))
    requires AnswersFrom(d[n..], |tail|) == Some((tail, m))
    requires all == [a] + tail && total == n + m
    ensures AnswersFrom(d, |all|) == Some((all, total))
  {
  }

  /** A prefix w + ws of d: d starts with w, and ws follows it. */
  lemma {:induction false} SplitAt(d: seq<byte>, w: seq<byte>, ws: seq<byte>)
    requires w + ws <= d
    ensures w <= d && |w| <= |d| && ws <= d[|w|..]
  {
    assert (w + ws)[..|w|] == w;
  }

  /** Valid questions are read back from bytes that start with their wire image. */
  lemma {:induction false} QuestionsRoundTrip(d: seq<byte>, qs: seq<Question>)
    requires ValidQuestions(qs) && QuestionsWire(qs) <= d
    ensures QuestionsFrom(d, |qs|) == Some((qs, |QuestionsWire(qs)|))
    decreases |qs|
  {
    if qs == [] {
      assert QuestionsWire(qs) == [];
    } else {
      var n := QuestionHeadAt(d, qs);
      QuestionsRoundTrip(d[n..], qs[1..]);
      assert qs == [qs[0]] + qs[1..];
      QuestionsFromStep(d, qs[0], n, qs[1..], |QuestionsWire(qs[1..])|, qs, |QuestionsWire(qs)|);
    }
  }

  /** Valid answers are read back from bytes that start with their wire image. */
  lemma {:induction false} AnswersRoundTrip(d: seq<byte>, answers: seq<Answer>)
    requires ValidAnswers(answers) && AnswersWire(answers) <= d
    ensures AnswersFrom(d, |answers|) == Some((answers, |AnswersWire(answers)|))
    decreases |answers|
  {
    if answers == [] {
      assert AnswersWire(answers) == [];
    } else {
      var n := AnswerHeadAt(d, answers);
      AnswersRoundTrip(d[n..], answers[1..]);
      assert answers == [answers[0]] + answers[1..];
      AnswersFromStep(d, answers[0], n, answers[1..], |AnswersWire(answers[1..])|, answers, |AnswersWire(answers)|);
    }
  }

  /** Where each section of a message's wire image sits in bytes that start with it; n is the length of the questions' image. */
  lemma {:induction false} MessageLayout(m: DNSMessage, data: seq<byte>) returns (n: nat)
    requires MessageWire(m) <= data
    ensures 12 + n <= |data| && n == |QuestionsWire(m.questions)|
    ensures data[..12] == HeaderWire(m.header)
    ensures QuestionsWire(m.questions) <= data[12..]
    ensures AnswersWire(m.answers) <= data[12 + n..]
  {
    var qw, aw := QuestionsWire(m.questions), AnswersWire(m.answers);
    assert data[..12] == MessageWire(m)[..12];
    assert data[12..][..|qw|] == MessageWire(m)[12..12 + |qw|];
    assert data[12 + |qw|..][..|aw|] == MessageWire(m)[12 + |qw|..];
    n := |qw|;
  }

  /** DecodeMessage succeeds once the header and both sections have been read back in turn. */
  lemma {:induction false} DecodeFromSections(data: seq<byte>, h: DNSHeader, qs: seq<Question>, answers: seq<Answer>, n: nat, k: nat)
    requires 12 + n <= |data| && h.qdCount == |qs| && h.anCount == |answers|
    requires UnpackDNSHeader(data[..12]) == Some(h)
    requires QuestionsFrom(data[12..], |qs|) == Some((qs, n))
    requires AnswersFrom(data[12 + n..], |answers|) == Some((answers, k))
    ensures DecodeMessage(data) == Some(DNSMessage(h, qs, answers))
  {
  }

  /** A valid message is decoded from any bytes that start with its wire image. */
  lemma {:induction false} MessageDecodes(m: DNSMessage, data: seq<byte>)
    requires ValidMessage(m) && MessageWire(m) <= data
    ensures DecodeMessage(data) == Some(m)
  {
    var n := MessageLayout(m, data);
    HeaderRoundTrip(m.header);
    QuestionsRoundTrip(data[12..], m.questions);
    AnswersRoundTrip(data[12 + n..], m.answers);
    DecodeFromSections(data, m.header, m.questions, m.answers, n, |AnswersWire(m.answers)|);
  }

  /**
   * A valid message is decoded from its wire image, whatever follows it; together with
   * DecodedIsValid this makes the valid messages exactly the ones decoding can produce.
   */
  lemma {:induction false} MessageRoundTrip(m: DNSMessage, rest: seq<byte>)
    requires ValidMessage(m)
    ensures DecodeMessage(MessageWire(m) + rest) == Some(m)
  {
    assert MessageWire(m) <= MessageWire(m) + rest;
    MessageDecodes(m, MessageWire(m) + rest);
  }

  /** Reference count of the bytes of a question section: NameLength + 4 per question. */
  function QuestionsLength(qs: seq<Question>): nat
  {
    if qs == [] then 0 else NameLength(qs[0].labels) + 4 + QuestionsLength(qs[1..])
  }

  /** Reference count of the bytes of an answer's records: NameLength + 14 per record. */
  function RecordsLength(rrs: seq<RR>): nat
  {
    if rrs == [] then 0 else NameLength(rrs[0].name) + 14 + RecordsLength(rrs[1..])
  }

  /** Reference count of the bytes of an answer section. */
  function AnswersLength(answers: seq<Answer>): nat
  {
    if answers == [] then 0 else RecordsLength(answers[0].rrs) + AnswersLength(answers[1..])
  }

  lemma {:induction false} QuestionsWireLength(qs: seq<Question>)
    ensures |QuestionsWire(qs)| == QuestionsLength(qs)
  {
    if qs != [] {
      NameWireLength(qs[0].labels);
      QuestionsWireLength(qs[1..]);
    }
  }

  lemma {:induction false} RecordsWireLength(rrs: seq<RR>)
    ensures |RRsWire(rrs)| == RecordsLength(rrs)
  {
    if rrs != [] {
      NameWireLength(rrs[0].name);
      RecordsWireLength(rrs[1..]);
    }
  }

  lemma {:induction false} AnswersWireLength(answers: seq<Answer>)
    ensures |AnswersWire(answers)| == AnswersLength(answers)
  {
    if answers != [] {
      RecordsWireLength(answers[0].rrs);
      AnswersWireLength(answers[1..]);
    }
  }

  /** A packed message is 12 header bytes plus the bytes of every question and every record. */
  lemma {:induction false} MessageWireLength(m: DNSMessage)
    ensures |MessageWire(m)| == 12 + QuestionsLength(m.questions) + AnswersLength(m.answers)
  {
    QuestionsWireLength(m.questions);
    AnswersWireLength(m.answers);
  }

  /** The wire image of the first i + 1 questions is that of the first i, then the next one. */
  lemma {:induction false} QuestionsWirePrefix(qs: seq<Question>, i: nat)
    requires i < |qs|
    ensures QuestionsWire(qs[..i + 1]) == QuestionsWire(qs[..i]) + QuestionWire(qs[i])
  {
    assert qs[..i + 1] == qs[..i] + [qs[i]];
    QuestionsWireAppend(qs[..i], qs[i]);
  }

  /** The wire image of the first i + 1 answers is that of the first i, then the next one. */
  lemma {:induction false} AnswersWirePrefix(answers: seq<Answer>, i: nat)
    requires i < |answers|
    ensures AnswersWire(answers[..i + 1]) == AnswersWire(answers[..i]) + AnswerWire(answers[i])
  {
    assert answers[..i + 1] == answers[..i] + [answers[i]];
    AnswersWireAppend(answers[..i], answers[i]);
  }

  /** The question loop of DNSMessage.Pack: appends each question's wire image to packed, in order. */
  method AppendQuestions(packed: seq<byte>, qs: seq<Question>) returns (r: seq<byte>)
    requires forall i :: 0 <= i < |qs| ==> Ascii(qs[i].labels)
    ensures r == packed + QuestionsWire(qs)
  {
    r := packed;
    assert qs[..0] == [];
    for i := 0 to |qs|
      invariant r == packed + QuestionsWire(qs[..i])
    {
      var b := PackQuestion(qs[i]);
      QuestionsWirePrefix(qs, i);
      r := r + b;
    }
    assert qs[..|qs|] == qs;
  }

  /** The answer loop of DNSMessage.Pack: appends each answer's wire image to packed, in order. */
  method AppendAnswers(packed: seq<byte>, answers: seq<Answer>) returns (r: seq<byte>)
    requires forall i :: 0 <= i < |answers| ==> PackableRecords(answers[i].rrs)
    ensures r == packed + AnswersWire(answers)
  {
    r := packed;
    assert answers[..0] == [];
    for i := 0 to |answers|
      invariant r == packed + AnswersWire(answers[..i])
    {
      var b := PackAnswer(answers[i]);
      AnswersWirePrefix(answers, i);
      r := r + b;
    }
    assert answers[..|answers|] == answers;
  }

  /** DNSMessage.Pack: the header, then each question, then each answer, appended in order. */
  method Pack(m: DNSMessage) returns (packed: seq<byte>)
    requires PackableMessage(m)
    ensures packed == MessageWire(m)
  {
    packed := Header.Pack(m.header);
    packed := AppendQuestions(packed, m.questions);
    packed := AppendAnswers(packed, m.answers);
  }

  /** Sections already read, xs taking off bytes, in front of what the rest of a loop reads. */
  function Prepend<T>(xs: seq<T>, off: nat, r: Option<(seq<T>, nat)>): Option<(seq<T>, nat)>
  {
    match r
    case None => None
    case Some((ys, k)) => Some((xs + ys, off + k))
  }

  /** Nothing read yet in front of a loop's outcome leaves that outcome. */
  lemma {:induction false} PrependNothing<T>(r: Option<(seq<T>, nat)>)
    ensures Prepend([], 0, r) == r
  {
    if r.Some? {
      assert [] + r.value.0 == r.value.0;
    }
  }

  /**
   * Iteration i of the question loop of Unpack, reading from rest, the bytes from offset idx on: if a
   * question is read there, the loop's outcome is the same with it appended and rest and idx moved
   * past it; if none is, the loop fails.
   */
  lemma {:induction false} QuestionsAdvance(rest: seq<byte>, idx: nat, total: nat, i: nat, qs: seq<Question>)
    requires i < total
    ensures UnpackQuestion(rest).None? ==> Prepend(qs, idx, QuestionsFrom(rest, total - i)) == None
    ensures UnpackQuestion(rest).Some? ==>
      var (q, n) := UnpackQuestion(rest).value;
      n <= |rest| &&
      Prepend(qs, idx, QuestionsFrom(rest, total - i))
        == Prepend(qs + [q], idx + n, QuestionsFrom(rest[n..], total - (i + 1)))
  {
    if UnpackQuestion(rest).Some? {
      var (q, n) := UnpackQuestion(rest).value;
      var tail := QuestionsFrom(rest[n..], total - (i + 1));
      if tail.Some? {
        assert qs + ([q] + tail.value.0) == (qs + [q]) + tail.value.0;
      }
    }
  }

  /** Iteration i of the answer loop of Unpack, in the same way. */
  lemma {:induction false} AnswersAdvance(rest: seq<byte>, idx: nat, total: nat, i: nat, answers: seq<Answer>)
    requires i < total
    ensures UnpackAnswer(rest).None? ==> Prepend(answers, idx, AnswersFrom(rest, total - i)) == None
    ensures UnpackAnswer(rest).Some? ==>
      var (a, n) := UnpackAnswer(rest).value;
      n <= |rest| &&
      Prepend(answers, idx, AnswersFrom(rest, total - i))
        == Prepend(answers + [a], idx + n, AnswersFrom(rest[n..], total - (i + 1)))
  {
    if UnpackAnswer(rest).Some? {
      var (a, n) := UnpackAnswer(rest).value;
      var tail := AnswersFrom(rest[n..], total - (i + 1));
      if tail.Some? {
        assert answers + ([a] + tail.value.0) == (answers + [a]) + tail.value.0;
      }
    }
  }

  /**
   * The question loop of Unpack: count times, reads a question from rest, the slice that starts at
   * the running offset idx, and moves idx (and with it rest) past it.
   */
  method UnpackQuestions(d: seq<byte>, count: nat) returns (r: Option<(seq<Question>, nat)>)
    ensures r == QuestionsFrom(d, count)
  {
    var idx: nat := 0;
    var rest := d;
    var qs: seq<Question> := [];
    PrependNothing(QuestionsFrom(d, count));
    for i := 0 to count
      invariant QuestionsFrom(d, count) == Prepend(qs, idx, QuestionsFrom(rest, count - i))
    {
      var q := UnpackQuestion(rest);
      QuestionsAdvance(rest, idx, count, i, qs);
      if q.None? {
        return None;
      }
      qs := qs + [q.value.0];
      idx := idx + q.value.1;
      rest := rest[q.value.1..];
    }
    assert qs + [] == qs;
    r := Some((qs, idx));
  }

  /** The answer loop of Unpack, in the same way. */
  method UnpackAnswers(d: seq<byte>, count: nat) returns (r: Option<(seq<Answer>, nat)>)
    ensures r == AnswersFrom(d, count)
  {
    var idx: nat := 0;
    var rest := d;
    var answers: seq<Answer> := [];
    PrependNothing(AnswersFrom(d, count));
    for i := 0 to count
      invariant AnswersFrom(d, count) == Prepend(answers, idx, AnswersFrom(rest, count - i))
    {
      var a := UnpackAnswer(rest);
      AnswersAdvance(rest, idx, count, i, answers);
      if a.None? {
        return None;
      }
      answers := answers + [a.value.0];
      idx := idx + a.value.1;
      rest := rest[a.value.1..];
    }
    assert answers + [] == answers;
    r := Some((answers, idx));
  }

  /**
   * Unpack: reads the header from the first 12 bytes, then QDCOUNT questions from offset 12 and
   * ANCOUNT answers from where the questions ended.
   */
  method Unpack(data: seq<byte>) returns (r: Option<DNSMessage>)
    ensures r == DecodeMessage(data)
  {
    if |data| < 12 {
      return None;
    }
    var hd := UnpackDNSHeader(data[..12]).value;
    var qs := UnpackQuestions(data[12..], hd.qdCount);
    if qs.None? {
      return None;
    }
    var idx := 12 + qs.value.1;
    var answers := UnpackAnswers(data[idx..], hd.anCount);
    if answers.None? {
      return None;
    }
    r := Some(DNSMessage(hd, qs.value.0, answers.value.0));
  }
}
