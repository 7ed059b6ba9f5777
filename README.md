# DNS wire-format codec and canned responder

A Dafny model of the codec in `app/dnsmessage/dnsmessage.go` of a small Go DNS server. The codec
covers the message layout of section 4.1 of RFC 1035. The model has six modules:

- `Binary` holds Go's `byte`, `uint16` and `uint32` and the big-endian reads and writes of `encoding/binary`.
- `Header` holds the 12-byte header. The flag fields are `bv8`, so Go's byte shifts and ors truncate exactly as in the source.
- `Names` holds domain names as length-prefixed labels. There are no compression pointers: the source has none.
- `Records` holds questions, resource records and the one-record `Answer` wrapper.
- `Message` holds whole messages: Pack writes the header, the questions and the answers in order. Unpack reads them back through a running offset.
- `Responder` holds `Process`, the canned responder. It is modelled as written.

Decoding is modelled with `Option`. Where the Go decoders would index past the end of their slice and
panic, the model returns `None`. Each loop of the Go codec is a method with loop invariants: `UnpackLabels`, the question and
answer loops of `Unpack`, and the label and section loops of the `Pack` methods.
Each such method is proved equal to a recursive function, and the round trips, lengths and validity
facts are proved as lemmas about those functions. `DNSHeader.Pack` fills a fresh 12-byte array in
place, and `Process` fills two preallocated arrays by index.

The code and the design description disagree in three places. The model follows the code each time:

- Names: the design speaks of 1-63 byte labels and compression pointers. The code accepts any length byte and follows no pointers.
- Responses: the design sets QDCOUNT = ANCOUNT = number of questions. `Process` hard-codes both to 1 (dnsmessage.go:238-239).
- Decode errors: the design asks for an explicit error. The code panics; the model returns `None`.

## Model

| member | source | states |
|---|---|---|
| Binary.Uint16 | app/dnsmessage/dnsmessage.go:90-94 | `binary.BigEndian.Uint16`: the first of two bytes is the high byte. It has no contract of its own; Uint16Inverse and Uint16RoundTrip pair it with Uint16Bytes |
| Binary.Uint32 | app/dnsmessage/dnsmessage.go:90-94 | `binary.BigEndian.Uint32`: the high 16 bits come from the first two bytes. It has no contract of its own; Uint32Inverse and Uint32RoundTrip pair it with Uint32Bytes |
| Binary.Uint16Bytes | app/dnsmessage/dnsmessage.go:136-142 | a 16-bit value is written as exactly two bytes, high byte first; Uint16RoundTrip reads it back |
| Binary.Uint32Bytes | app/dnsmessage/dnsmessage.go:78-82 | a 32-bit value is written as exactly four bytes, high byte first; Uint32RoundTrip reads it back |
| Binary.Uint16Inverse | app/dnsmessage/dnsmessage.go:90-94 | the two bytes written for the integer read from two bytes are those bytes |
| Binary.Uint32Inverse | app/dnsmessage/dnsmessage.go:90-94 | the same for four bytes |
| Binary.Uint16RoundTrip | app/dnsmessage/dnsmessage.go:78-82 | reading back the big-endian bytes of a 16-bit value gives the value |
| Binary.Uint32RoundTrip | app/dnsmessage/dnsmessage.go:78-82 | the same for 32-bit values |
| Binary.PutUint16 | app/dnsmessage/dnsmessage.go:136-142 | writes the two big-endian bytes of x at off and leaves every other array cell unchanged |
| Header.FlagsHigh | app/dnsmessage/dnsmessage.go:137 | byte 2: QR, OPCODE, AA, TC and RD shifted into place and or-ed, truncated to 8 bits as in Go. It has no contract of its own; UnpackFlags and FlagsRoundTrip invert it |
| Header.FlagsLow | app/dnsmessage/dnsmessage.go:138 | byte 3: RA, Z and RCODE, in the same way; inverted by UnpackFlags and FlagsRoundTrip |
| Header.HeaderWire | app/dnsmessage/dnsmessage.go:134-144 | a packed header is always 12 bytes |
| Header.Pack | app/dnsmessage/dnsmessage.go:134-144 | the 12-byte array filled in place holds ID, the two flag bytes and the four counts, big-endian |
| Header.UnpackFlags | app/dnsmessage/dnsmessage.go:151-165 | the fields masked out of bytes 2 and 3 fit their widths and pack back into the same two bytes |
| Header.UnpackDNSHeader | app/dnsmessage/dnsmessage.go:147-166 | succeeds exactly when the input is 12 bytes; then the header is valid and packs back to the input |
| Header.FlagsRoundTrip | app/dnsmessage/dnsmessage.go:137-160 | the flags of a valid header are recovered from their two packed bytes |
| Header.HeaderRoundTrip | app/dnsmessage/dnsmessage.go:134-166 | unpacking a packed header gives it back if and only if QR, AA, TC, RD, RA < 2, Z < 8 and OPCODE, RCODE < 16 |
| Header.HeaderTestInstance | app/dnsmessage/dnsmessage_test.go:9-37 | the repository's test header (ID 1234, QR 1) survives the round trip |
| Names.LabelsWire | app/dnsmessage/dnsmessage.go:120-126 | each label as its length byte followed by its bytes, without the terminator. It has no contract of its own; LabelsWireAppend and PackName tie it to the loop |
| Names.NameWire | app/dnsmessage/dnsmessage.go:120-127 | the labels followed by the zero byte. It has no contract of its own; ParseLabelsRoundTrip and ParseLabelsConsumesWire show that it and ParseLabels invert each other on valid names |
| Names.LengthByte | app/dnsmessage/dnsmessage.go:71-72 | the length byte of a label shorter than 256 bytes is its length |
| Names.NameWireLength | app/dnsmessage/dnsmessage.go:120-127 | a written name takes 1 + length bytes per label plus the terminator |
| Names.LabelsWireAppend | app/dnsmessage/dnsmessage.go:120-126 | writing one more label appends its length byte and its bytes |
| Names.ParseLabels | app/dnsmessage/dnsmessage.go:98-107 | a successful read consumes at least the terminator and no more than its input |
| Names.ParseLabelsConsumesWire | app/dnsmessage/dnsmessage.go:98-107 | the labels read are non-empty and short, and the bytes consumed are exactly their wire image |
| Names.ParseLabelsRoundTrip | app/dnsmessage/dnsmessage.go:98-107 | reading the wire image of a valid name, whatever follows it, gives the name and consumes the sum of 1 + length over its labels, plus 1 |
| Names.UnpackLabels | app/dnsmessage/dnsmessage.go:98-107 | the loop over length bytes returns what ParseLabels returns, including None on truncated input |
| Names.PackName | app/dnsmessage/dnsmessage.go:120-127 | the nested label loops write the name's wire image |
| Records.QuestionWire | app/dnsmessage/dnsmessage.go:118-131 | what `Question.Pack` writes: the name, then Type and Class big-endian. It has no contract of its own; QuestionRoundTrip and UnpackQuestionConsumesWire pair it with UnpackQuestion |
| Records.RRWire | app/dnsmessage/dnsmessage.go:68-84 | what `RR.Pack` writes: the name, then the 14 fixed bytes. It has no contract of its own; RRRoundTrip and UnpackRRConsumesWire pair it with UnpackRR |
| Records.RRsWire | app/dnsmessage/dnsmessage.go:51-57 | the images of the records, in order. It has no contract of its own; RRsWireAppend ties it to the loop of `Answer.Pack` |
| Records.AnswerWire | app/dnsmessage/dnsmessage.go:51-57 | what `Answer.Pack` writes: all of its records. It has no contract of its own; AnswerRoundTrip and AnswerReadsFirstRecord state what UnpackAnswer recovers from it |
| Records.RRFields | app/dnsmessage/dnsmessage.go:78-82 | the fixed part of a record is 14 bytes |
| Records.RRFieldsOfBytes | app/dnsmessage/dnsmessage.go:90-94 | the fields read from 14 bytes write back as the same 14 bytes |
| Records.RRFieldsRead | app/dnsmessage/dnsmessage.go:90-94 | the 14 fixed bytes of a record, wherever they sit, read back as its Type, Class, TTL, RDLENGTH and RDATA |
| Records.RRsWireAppend | app/dnsmessage/dnsmessage.go:51-57 | writing one more record appends its image |
| Records.UnpackQuestion | app/dnsmessage/dnsmessage.go:109-116 | a successful read consumes between 1 byte and its whole input |
| Records.UnpackRR | app/dnsmessage/dnsmessage.go:86-96 | a successful read consumes between 1 byte and its whole input |
| Records.UnpackAnswer | app/dnsmessage/dnsmessage.go:59-66 | an answer read always holds exactly one record |
| Records.UnpackQuestionConsumesWire | app/dnsmessage/dnsmessage.go:109-116 | the question read has a valid name and the bytes consumed are its wire image |
| Records.UnpackRRConsumesWire | app/dnsmessage/dnsmessage.go:86-96 | the record read has a valid name and the bytes consumed are its wire image |
| Records.UnpackAnswerConsumesWire | app/dnsmessage/dnsmessage.go:59-66 | the answer read is valid and the bytes consumed are its wire image |
| Records.QuestionRoundTrip | app/dnsmessage/dnsmessage.go:109-131 | a packed question is its name plus 4 bytes and reads back as the same question, consuming all of it |
| Records.RRRoundTrip | app/dnsmessage/dnsmessage.go:68-96 | a packed record is its name plus 14 bytes and reads back as the same record, consuming all of it |
| Records.AnswerReadsFirstRecord | app/dnsmessage/dnsmessage.go:51-66 | reading a packed answer of several records gives back only the first |
| Records.AnswerRoundTrip | app/dnsmessage/dnsmessage.go:51-66 | a packed answer reads back as itself if and only if it holds exactly one record |
| Records.QuestionAt | app/dnsmessage/dnsmessage.go:109-116 | a question is read from any bytes that start with its image |
| Records.AnswerAt | app/dnsmessage/dnsmessage.go:59-66 | a one-record answer is read from any bytes that start with its image |
| Records.PackQuestion | app/dnsmessage/dnsmessage.go:118-131 | writes the name, then Type and Class big-endian |
| Records.PackRR | app/dnsmessage/dnsmessage.go:68-84 | writes the name, then Type, Class, TTL, RDLENGTH and RDATA big-endian |
| Records.PackAnswer | app/dnsmessage/dnsmessage.go:51-57 | writes every record of the answer, in order |
| Message.QuestionsWire | app/dnsmessage/dnsmessage.go:190-192 | the question section: the questions' images in order. It has no contract of its own; QuestionsFromConsumesWire and QuestionsRoundTrip pair it with QuestionsFrom |
| Message.AnswersWire | app/dnsmessage/dnsmessage.go:193-195 | the answer section: the answers' images in order; paired with AnswersFrom by AnswersFromConsumesWire and AnswersRoundTrip |
| Message.MessageWire | app/dnsmessage/dnsmessage.go:188-197 | what `DNSMessage.Pack` writes: header, questions, answers. It has no contract of its own; Pack is proved equal to it, and MessageRoundTrip and DecodedIsValid pair it with DecodeMessage |
| Message.QuestionsWireAppend | app/dnsmessage/dnsmessage.go:190-192 | appending a question appends its image to the question section |
| Message.AnswersWireAppend | app/dnsmessage/dnsmessage.go:193-195 | appending an answer appends its image to the answer section |
| Message.QuestionsFrom | app/dnsmessage/dnsmessage.go:201-207 | a successful read of count questions returns count of them and stays within its input |
| Message.AnswersFrom | app/dnsmessage/dnsmessage.go:208-213 | the same for answers |
| Message.QuestionsFromConsumesWire | app/dnsmessage/dnsmessage.go:201-207 | the questions read are valid and the bytes consumed are exactly their images in order |
| Message.AnswersFromConsumesWire | app/dnsmessage/dnsmessage.go:208-213 | the answers read are valid and the bytes consumed are exactly their images in order |
| Message.DecodeMessage | app/dnsmessage/dnsmessage.go:199-219 | `Unpack` as a function: the header from bytes 0-11, QDCOUNT questions from offset 12, then ANCOUNT answers; None when fewer than 12 bytes remain or a section is cut short. It has no contract of its own; Unpack is proved equal to it, DecodedIsValid and MessageRoundTrip invert it against MessageWire |
| Message.DecodedSections | app/dnsmessage/dnsmessage.go:199-219 | a successful decode read a valid 12-byte header, then QDCOUNT questions, then ANCOUNT answers from where the questions ended |
| Message.DecodedIsValid | app/dnsmessage/dnsmessage.go:199-219 | every decoded message is valid and its wire image is a prefix of the input |
| Message.QuestionsRoundTrip | app/dnsmessage/dnsmessage.go:201-207 | valid questions are read back from any bytes that start with their images, consuming exactly those |
| Message.AnswersRoundTrip | app/dnsmessage/dnsmessage.go:208-213 | valid one-record answers are read back in the same way |
| Message.MessageDecodes | app/dnsmessage/dnsmessage.go:188-219 | a valid message decodes from any bytes that start with its wire image |
| Message.MessageRoundTrip | app/dnsmessage/dnsmessage.go:188-219 | Unpack after Pack gives a valid message back, whatever bytes follow; with DecodedIsValid, the valid messages are exactly those decoding produces |
| Message.QuestionsWireLength | app/dnsmessage/dnsmessage.go:190-192 | the question section is name length + 4 bytes per question |
| Message.RecordsWireLength | app/dnsmessage/dnsmessage.go:51-57 | an answer is name length + 14 bytes per record |
| Message.AnswersWireLength | app/dnsmessage/dnsmessage.go:193-195 | the answer section is the sum of its answers' lengths |
| Message.MessageWireLength | app/dnsmessage/dnsmessage.go:188-197 | a packed message is 12 bytes plus the question and record lengths |
| Message.AppendQuestions | app/dnsmessage/dnsmessage.go:190-192 | the question loop of Pack appends every question's image, in order |
| Message.AppendAnswers | app/dnsmessage/dnsmessage.go:193-195 | the answer loop of Pack appends every answer's image, in order |
| Message.Pack | app/dnsmessage/dnsmessage.go:188-197 | writes the header, the questions and the answers: the message's wire image |
| Message.UnpackQuestions | app/dnsmessage/dnsmessage.go:201-207 | the question loop of Unpack, advancing a running offset, returns what QuestionsFrom returns |
| Message.UnpackAnswers | app/dnsmessage/dnsmessage.go:208-213 | the answer loop of Unpack returns what AnswersFrom returns |
| Message.Unpack | app/dnsmessage/dnsmessage.go:199-219 | reads the header, QDCOUNT questions and ANCOUNT answers through a running offset and returns exactly DecodeMessage(data); None wherever Go would read past the end |
| Responder.Rcode | app/dnsmessage/dnsmessage.go:222-227 | RCODE 0 for OPCODE 0 and 4 for any other. It has no contract of its own; ResponseHeaderFields states it |
| Responder.ResponseHeader | app/dnsmessage/dnsmessage.go:228-242 | the header Process builds. It has no contract of its own; ResponseHeaderFields, ResponseFlagsHigh and ResponseHeaderWire state its fields and bytes |
| Responder.ResponseQuestion | app/dnsmessage/dnsmessage.go:248-252 | the echoed question: the query's name with Type and Class 1. It has no contract of its own; ResponseBody states it |
| Responder.ResponseAnswer | app/dnsmessage/dnsmessage.go:253-264 | the answer to a question: one A record for its name, TTL 60, RDLENGTH 4, RDATA 8.8.8.8. It has no contract of its own; ResponseBody and GoogleAddress state it |
| Responder.Respond | app/dnsmessage/dnsmessage.go:221-273 | `Process` as a function: the response header, then QDCOUNT echoed questions and QDCOUNT answers. It has no contract of its own; Process is proved equal to it, and ResponseBody, ResponseValid and ResponseRoundTrip state what it holds |
| Responder.Process | app/dnsmessage/dnsmessage.go:221-273 | fills the preallocated arrays by index and returns the response Respond describes |
| Responder.ResponseHeaderFields | app/dnsmessage/dnsmessage.go:221-242 | QR = 1; ID, OPCODE and RD copied; RCODE is 0 if and only if OPCODE is 0, else 4; AA, TC, RA, Z, NSCOUNT, ARCOUNT are 0; QDCOUNT = ANCOUNT = 1; valid for a valid query header |
| Responder.ResponseFlagsHigh | app/dnsmessage/dnsmessage.go:228-237 | the response's flag byte is 0x80 + 8 * OPCODE + RD |
| Responder.ResponseHeaderWire | app/dnsmessage/dnsmessage.go:228-242 | the 12 header bytes on the wire: the query ID, 0x80 + 8 * OPCODE + RD, RCODE 0 or 4, then counts 1, 1, 0, 0 |
| Responder.GoogleAddress | app/dnsmessage/dnsmessage.go:261 | the RDATA value read from 8, 8, 8, 8 is 0x08080808 |
| Responder.ResponseBody | app/dnsmessage/dnsmessage.go:244-270 | QDCOUNT questions and QDCOUNT answers; question i has the query's i-th name with Type and Class 1; answer i is one record for that name, Type 1, Class 1, TTL 60, RDLENGTH 4, RDATA 0x08080808 |
| Responder.ResponseValid | app/dnsmessage/dnsmessage.go:221-273 | the response to a valid query is a valid message if and only if QDCOUNT is 1 |
| Responder.ResponseRoundTrip | app/dnsmessage/dnsmessage.go:238-239 | the packed response to a valid query decodes back as itself if and only if QDCOUNT is 1 |
| Responder.TwoQuestionResponseMisread | app/dnsmessage/dnsmessage.go:238-239 | the response to a two-question query does not decode back as itself |
| Responder.CountedResponse | app/dnsmessage/dnsmessage.go:238-239 | the corrected response: Respond with QDCOUNT and ANCOUNT set to the number of questions answered. It has no contract of its own; CountedResponseRoundTrip proves it valid and round-tripping |
| Responder.CountedResponseRoundTrip | app/dnsmessage/dnsmessage.go:238-239 | with QDCOUNT = ANCOUNT = number of questions answered, the response to every valid query is valid and decodes back as itself |
| Responder.DecodedQueryProcessable | app/dnsmessage/dnsmessage.go:244-249 | every decoded query holds the QDCOUNT questions that Process indexes |

## Left out

- `app/main.go`: the UDP listen loop, flag parsing and the forwarder's socket round trips are I/O and are not part of this model.
- Forwarding split and combine: `SplitQuery` and `CombineResponses` are called from `app/main.go`, but their definitions are not part of this model.
- `DNSHeader.String` formats a header for logging only.
- Compression pointers: the Go decoder does not follow them, so the model does not either. A pointer byte is read as a label length.
- Unpack and its helpers: a Go slice expression with an explicit upper bound may reach past the slice's length up to its capacity, here the 1024-byte receive buffer, and then reads stale bytes instead of panicking. The indexing `data[i]` of `UnpackLabels` (dnsmessage.go:101) and the open slices `data[idx:]` of `Unpack` (:204, :210) still panic past the length, so `UnpackLabels` fails exactly where the model returns `None`. Stale bytes can come only from the fixed-field reads of `UnpackRR` and `UnpackQuestion` (:90-94, :113-114) and from the header read `data[:12]` (:200), and only when that read is the last of the message, since otherwise the next `data[idx:]` panics. The model returns `None` for those reads too, as for every other read past the end of the input.
- Names.PackName, Records.PackQuestion, Records.PackRR, Records.PackAnswer and Message.Pack require ASCII labels. Go's `for _, c := range s` walks the runes of a label and writes `byte(c)`, which equals the label's own bytes only for ASCII text; that decoding of UTF-8 is not modelled.
- Names.LengthByte: the length byte wraps modulo 256 exactly as Go's `byte(l)` does. The round-trip lemmas therefore need labels shorter than 256 bytes.
- `binary.Write` returns an error that the Go code ignores. Writing to a `bytes.Buffer` cannot fail, so the model has no error path there.
- Responder.Process requires QDCOUNT to be at most the number of questions; Go panics with an index out of range otherwise. Every query Unpack produces meets this (Responder.DecodedQueryProcessable).

## Findings

| source | as written | input that shows it | evidently intended | confidence | as-written member | corrected member |
|---|---|---|---|---|---|---|
| app/dnsmessage/dnsmessage.go:238-239 | `Process` sets QDCOUNT and ANCOUNT to 1 but emits QDCOUNT questions and QDCOUNT answers | a query for `a` and `b` (QDCOUNT 2): the response header claims one question and one answer, so a reader takes the second question for the answer | QDCOUNT = ANCOUNT = number of questions, as the design describes | medium, not executed | Responder.TwoQuestionResponseMisread | Responder.CountedResponseRoundTrip |
