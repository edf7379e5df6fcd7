/**
 DNS messages: `Parse`, `formatRData` and `findOffset` of internal/protocol/dns/parser.go.

 `formatRData` starts its NS, CNAME and PTR case with a call to `decodeName` at offset -1, whose first
 read indexes before the slice; that run-time failure is the outcome `Crash`.
 */
module DnsMessage {
  import opened Common
  import opened DnsName
  import opened Decimal
  import opened Join

  const DOT: byte := 46
  const SPACE: byte := 32

  // ------------------------------------------------------------------ record data

  /** The Data string; the textual form of an IP address is the library's, so the bytes stand for it. */
  datatype RData = Text(text: bytes) | Address(ip: bytes) | Crash

  /** What `%x` prints for a byte slice. */
  function Hex(d: bytes): bytes {
    if d == [] then [] else [HexDigit(d[0] / 16), HexDigit(d[0] % 16)] + Hex(d[1..])
  }

  /** Two lower-case digits for each byte, the high half first. */
  lemma {:induction false} HexDigits(d: bytes)
    ensures |Hex(d)| == 2 * |d|
    ensures forall i :: 0 <= i < |d| ==> HexValue(Hex(d)[2 * i..2 * i + 2]) == Some(d[i])
  {
    if d != [] {
      HexDigits(d[1..]);
      var h, rest := Hex(d), Hex(d[1..]);
      HexPair(d[0]);
      assert h[0..2] == [HexDigit(d[0] / 16), HexDigit(d[0] % 16)];
      forall i | 0 < i < |d| ensures HexValue(h[2 * i..2 * i + 2]) == Some(d[i]) {
        assert h[2 * i..2 * i + 2] == rest[2 * (i - 1)..2 * (i - 1) + 2];
      }
    }
  }

  lemma HexPair(b: byte)
    ensures HexValue([HexDigit(b / 16), HexDigit(b % 16)]) == Some(b)
  {
    var pair := [HexDigit(b / 16), HexDigit(b % 16)];
    assert pair[..1] == [HexDigit(b / 16)];
    assert [HexDigit(b / 16)][..0] == [];
    assert HexValue(pair[..1]) == Some(b / 16);
  }

  /** The character strings of a TXT record, up to the first that overruns. */
  function TxtStrings(d: bytes): seq<bytes>
    decreases |d|
  {
    if d == [] || 1 + d[0] > |d| then [] else [d[1..1 + d[0]]] + TxtStrings(d[1 + d[0]..])
  }

  /** One turn of the loop over the strings. */
  lemma TxtStep(d: bytes, off: nat)
    requires off < |d|
    ensures var next := off + 1 + d[off];
      TxtStrings(d[off..]) == if next > |d| then [] else [d[off + 1..next]] + TxtStrings(d[next..])
  {
    var rest, next := d[off..], off + 1 + d[off];
    assert rest[0] == d[off];
    if next <= |d| { assert rest[1..1 + rest[0]] == d[off + 1..next] && rest[1 + rest[0]..] == d[next..]; }
  }

  lemma TxtEnd(d: bytes)
    ensures TxtStrings(d[|d|..]) == [] && d[0..] == d
  {}

  method ReadTxt(rdata: bytes) returns (texts: seq<bytes>)
    ensures texts == TxtStrings(rdata)
  {
    hide TxtStrings;
    texts := [];
    var off: nat := 0;
    TxtEnd(rdata);
    ghost var rest := TxtStrings(rdata);
    while off < |rdata|
      invariant off <= |rdata|
      invariant rest == TxtStrings(rdata[off..]) && texts + rest == TxtStrings(rdata)
    {
      TxtStep(rdata, off);
      var tlen: nat := rdata[off];
      off := off + 1;
      if off + tlen > |rdata| {
        assert texts + [] == texts;
        return;
      }
      var text := rdata[off..off + tlen];
      off := off + tlen;
      rest := TxtStrings(rdata[off..]);
      assert texts + ([text] + rest) == (texts + [text]) + rest;
      texts := texts + [text];
    }
    assert texts + [] == texts;
  }

  function PutTxt(texts: seq<bytes>): bytes
    requires forall i :: 0 <= i < |texts| ==> |texts[i]| < 256
  {
    if texts == [] then [] else [|texts[0]|] + texts[0] + PutTxt(texts[1..])
  }

  /** Nothing, or a string that is cut off. */
  predicate CutOff(d: bytes) { d == [] || 1 + d[0] > |d| }

  /** The complete strings come back in order, whatever cut-off string follows them. */
  lemma {:induction false} TxtRoundTrip(texts: seq<bytes>, cut: bytes)
    requires (forall i :: 0 <= i < |texts| ==> |texts[i]| < 256) && CutOff(cut)
    ensures TxtStrings(PutTxt(texts) + cut) == texts
  {
    var d := PutTxt(texts) + cut;
    if texts != [] {
      assert d[1..1 + d[0]] == texts[0] && d[1 + d[0]..] == PutTxt(texts[1..]) + cut;
      TxtRoundTrip(texts[1..], cut);
    }
  }

  /** findOffset compares addresses: rdata is the slice of the packet that begins at `at`. */
  method FindOffset(pktLen: nat, at: nat, subLen: nat) returns (i: int)
    requires at + subLen <= pktLen
    ensures i == if subLen == 0 then -1 else at
  {
    if subLen == 0 || pktLen == 0 { return -1; }
    i := 0;
    while i + subLen <= pktLen
      invariant 0 <= i <= at
      decreases pktLen - i
    {
      if i == at { return i; }
      i := i + 1;
    }
  }

  /** formatRData on the region of length `len` at `start`. */
  function FormatRData(msg: bytes, rtype: nat, start: nat, len: nat): RData
    requires start + len <= |msg|
  {
    var rdata := msg[start..start + len];
    if rtype == 1 && len == 4 then Address(rdata)
    else if rtype == 28 && len == 16 then Address(rdata)
    else if rtype in {2, 5, 12} then Crash
    else if rtype == 15 && len >= 3 && Decode(msg, start + 2).Decoded? then
      Text(Numeral(BE16(rdata, 0)) + [SPACE] + Joined(Decode(msg, start + 2).labels, DOT))
    else if rtype == 16 && len > 0 then Text(Joined(TxtStrings(rdata), SPACE))
    else Text(Hex(rdata))
  }

  // ------------------------------------------------------------------ messages

  /** Types and classes as numbers; rrTypeName and rrClassName only print them. */
  datatype Question = Question(name: bytes, qtype: nat, qclass: nat)
  datatype Answer = Answer(name: bytes, rtype: nat, rclass: nat, ttl: nat, data: RData)
  datatype Detail = Detail(txID: nat, isResponse: bool, opcode: nat, rcode: nat,
                           questions: seq<Question>, answers: seq<Answer>)

  datatype Error =
    | TooShort
    | QuestionName(name: Name)
    | QuestionTruncated
    | AnswerName(name: Name)
    | AnswerTruncated
    | RDataTruncated

  datatype Outcome<+T> = Ok(value: T) | Err(error: Error) | Crashed

  function QuestionAt(msg: bytes, off: nat): (r: Outcome<(Question, nat)>)
    ensures r.Ok? ==> off < r.value.1 <= |msg|
  {
    DecodeForward(msg, off);
    var name := Decode(msg, off);
    if !name.Decoded? then Err(QuestionName(name))
    else if name.after + 4 > |msg| then Err(QuestionTruncated)
    else Ok((Question(Joined(name.labels, DOT), BE16(msg, name.after), BE16(msg, name.after + 2)),
             name.after + 4))
  }

  function AnswerAt(msg: bytes, off: nat): (r: Outcome<(Answer, nat)>)
    ensures r.Ok? ==> off < r.value.1 <= |msg|
  {
    DecodeForward(msg, off);
    var name := Decode(msg, off);
    if !name.Decoded? then Err(AnswerName(name))
    else if name.after + 10 > |msg| then Err(AnswerTruncated)
    else
      var start, len := name.after + 10, BE16(msg, name.after + 8);
      if start + len > |msg| then Err(RDataTruncated)
      else
        var data := FormatRData(msg, BE16(msg, name.after), start, len);
        if data.Crash? then Crashed
        else Ok((Answer(Joined(name.labels, DOT), BE16(msg, name.after), BE16(msg, name.after + 2),
                        BE32(msg, name.after + 4), data),
                 start + len))
  }

  /** A section: `count` records, each starting where the one before ended. */
  function RecordsAt<T>(read: nat -> Outcome<(T, nat)>, off: nat, count: nat): Outcome<(seq<T>, nat)>
    decreases count
  {
    if count == 0 then Ok(([], off))
    else match read(off)
      case Err(e) => Err(e)
      case Crashed => Crashed
      case Ok((one, next)) =>
        match RecordsAt(read, next, count - 1)
        case Ok((more, end)) => Ok(([one] + more, end))
        case Err(e) => Err(e)
        case Crashed => Crashed
  }

  function QuestionReader(msg: bytes): nat -> Outcome<(Question, nat)> { (off: nat) => QuestionAt(msg, off) }

  function AnswerReader(msg: bytes): nat -> Outcome<(Answer, nat)> { (off: nat) => AnswerAt(msg, off) }

  const HEADER: nat := 12

  function Parsed(msg: bytes): Outcome<Detail> {
    if |msg| < HEADER then Err(TooShort)
    else
      match RecordsAt(QuestionReader(msg), HEADER, BE16(msg, 4))
      case Err(e) => Err(e)
      case Crashed => Crashed
      case Ok((qs, off)) =>
        match RecordsAt(AnswerReader(msg), off, BE16(msg, 6))
        case Err(e) => Err(e)
        case Crashed => Crashed
        case Ok((answers, _)) =>
          var flags := BE16(msg, 2);
          Ok(Detail(BE16(msg, 0), flags >= 0x8000, flags / 0x800 % 16, flags % 16, qs, answers))
  }

  /** The section's result is the records read so far followed by what reading on gives. */
  ghost predicate Resumes<T(!new)>(whole: Outcome<(seq<T>, nat)>, done: seq<T>, rest: Outcome<(seq<T>, nat)>) {
    match rest
    case Ok((more, end)) => whole == Ok((done + more, end))
    case Err(e) => whole == Err(e)
    case Crashed => whole == Crashed
  }

  lemma ResumesAtStart<T(!new)>(whole: Outcome<(seq<T>, nat)>)
    ensures Resumes(whole, [], whole)
  {
    if whole.Ok? { assert [] + whole.value.0 == whole.value.0; }
  }

  lemma ResumesStep<T(!new)>(
    whole: Outcome<(seq<T>, nat)>, done: seq<T>, one: T, rest: Outcome<(seq<T>, nat)>, next: Outcome<(seq<T>, nat)>)
    requires Resumes(whole, done, rest)
    requires match next
      case Ok((more, end)) => rest == Ok(([one] + more, end))
      case Err(e) => rest == Err(e)
      case Crashed => rest == Crashed
    ensures Resumes(whole, done + [one], next)
  {
    if next.Ok? { assert done + ([one] + next.value.0) == done + [one] + next.value.0; }
  }

  /** The question loop of Parse. */
  method ReadQuestions(msg: bytes, from: nat, count: nat) returns (r: Outcome<(seq<Question>, nat)>)
    ensures r == RecordsAt(QuestionReader(msg), from, count)
  {
    hide Decode, BE16, BE32, Joined;
    var questions: seq<Question> := [];
    var offset: nat := from;
    ResumesAtStart(RecordsAt(QuestionReader(msg), from, count));
    for i := 0 to count
      invariant Resumes(RecordsAt(QuestionReader(msg), from, count), questions,
                        RecordsAt(QuestionReader(msg), offset, count - i))
    {
      var name := DecodeName(msg, offset);
      if !name.Decoded? { return Err(QuestionName(name)); }
      if name.after + 4 > |msg| { return Err(QuestionTruncated); }
      var q := Question(Joined(name.labels, DOT), BE16(msg, name.after), BE16(msg, name.after + 2));
      assert QuestionAt(msg, offset) == Ok((q, name.after + 4));
      ResumesStep(RecordsAt(QuestionReader(msg), from, count), questions, q,
                  RecordsAt(QuestionReader(msg), offset, count - i),
                  RecordsAt(QuestionReader(msg), name.after + 4, count - i - 1));
      questions := questions + [q];
      offset := name.after + 4;
    }
    assert questions + [] == questions;
    r := Ok((questions, offset));
  }

  /** The answer loop of Parse. */
  method ReadAnswers(msg: bytes, from: nat, count: nat) returns (r: Outcome<(seq<Answer>, nat)>)
    ensures r == RecordsAt(AnswerReader(msg), from, count)
  {
    hide Decode, BE16, BE32, Joined;
    var answers: seq<Answer> := [];
    var offset: nat := from;
    ResumesAtStart(RecordsAt(AnswerReader(msg), from, count));
    for i := 0 to count
      invariant Resumes(RecordsAt(AnswerReader(msg), from, count), answers,
                        RecordsAt(AnswerReader(msg), offset, count - i))
    {
      var name := DecodeName(msg, offset);
      if !name.Decoded? { return Err(AnswerName(name)); }
      if name.after + 10 > |msg| { return Err(AnswerTruncated); }
      var rtype, rdLength := BE16(msg, name.after), BE16(msg, name.after + 8);
      var start := name.after + 10;
      if start + rdLength > |msg| { return Err(RDataTruncated); }
      var data := FormatRData(msg, rtype, start, rdLength);
      if data.Crash? { return Crashed; }
      var a := Answer(Joined(name.labels, DOT), rtype, BE16(msg, name.after + 2), BE32(msg, name.after + 4), data);
      assert AnswerAt(msg, offset) == Ok((a, start + rdLength));
      ResumesStep(RecordsAt(AnswerReader(msg), from, count), answers, a,
                  RecordsAt(AnswerReader(msg), offset, count - i),
                  RecordsAt(AnswerReader(msg), start + rdLength, count - i - 1));
      answers := answers + [a];
      offset := start + rdLength;
    }
    assert answers + [] == answers;
    r := Ok((answers, offset));
  }

  /** Parse: the header, then the two sections one after the other. */
  method Parse(msg: bytes) returns (r: Outcome<Detail>)
    ensures r == Parsed(msg)
  {
    if |msg| < HEADER { return Err(TooShort); }
    var questions := ReadQuestions(msg, HEADER, BE16(msg, 4));
    match questions
    case Err(e) => return Err(e);
    case Crashed => return Crashed;
    case Ok((qs, off)) =>
      var answers := ReadAnswers(msg, off, BE16(msg, 6));
      match answers
      case Err(e) => return Err(e);
      case Crashed => return Crashed;
      case Ok((as_, _)) =>
        var flags := BE16(msg, 2);
        r := Ok(Detail(BE16(msg, 0), flags >= 0x8000, flags / 0x800 % 16, flags % 16, qs, as_));
  }

  // ------------------------------------------------------------------ what a message is made of

  datatype QuestionSpec = QuestionSpec(labels: seq<bytes>, qtype: nat, qclass: nat)
  /** Record data: bytes, or for an MX record its preference and exchange, whose name may be compressed. */
  datatype DataSpec = Raw(rdata: bytes) | Exchange(preference: nat, host: seq<bytes>)

  datatype AnswerSpec = AnswerSpec(labels: seq<bytes>, rtype: nat, rclass: nat, ttl: nat, data: DataSpec)
  datatype MessageSpec = MessageSpec(txID: nat, isResponse: bool, opcode: nat, rcode: nat,
                                     questions: seq<QuestionSpec>, answers: seq<AnswerSpec>)

  predicate Legal(m: MessageSpec) {
    && m.txID < 0x1_0000 && m.opcode < 16 && m.rcode < 16
    && |m.questions| < 0x1_0000 && |m.answers| < 0x1_0000
    && (forall i :: 0 <= i < |m.questions| ==> LegalQuestion(m.questions[i]))
    && (forall i :: 0 <= i < |m.answers| ==> LegalAnswer(m.answers[i]))
  }

  predicate LegalQuestion(q: QuestionSpec) {
    LegalName(q.labels) && q.qtype < 0x1_0000 && q.qclass < 0x1_0000
  }

  /** Names of exchanges keep to the 255 bytes of section 2.3.4 of RFC 1035. */
  predicate LegalAnswer(a: AnswerSpec) {
    && LegalName(a.labels) && a.rtype < 0x1_0000 && a.rclass < 0x1_0000 && a.ttl < 0x1_0000_0000
    && (a.rtype == 15 <==> a.data.Exchange?)
    && match a.data
       case Raw(rdata) => |rdata| < 0x1_0000
       case Exchange(preference, host) => preference < 0x1_0000 && LegalName(host) && PlainLength(host) <= 255
  }

  predicate Truthful(dict: Dictionary) { forall s :: s in dict ==> dict[s] < TARGETS }

  function PutQuestions(out: bytes, dict: Dictionary, qs: seq<QuestionSpec>): (r: (bytes, Dictionary))
    requires Truthful(dict) && forall i :: 0 <= i < |qs| ==> LegalQuestion(qs[i])
    ensures Truthful(r.1)
    decreases |qs|
  {
    if qs == [] then (out, dict)
    else
      assert LegalQuestion(qs[0]);
      var (named, dict') := PutName(out, dict, qs[0].labels);
      PutQuestions(named + PutBE16(qs[0].qtype) + PutBE16(qs[0].qclass), dict', qs[1..])
  }

  /** Type, class, time to live and data length. */
  function AnswerHead(a: AnswerSpec, len: nat): (h: bytes)
    requires a.rtype < 0x1_0000 && a.rclass < 0x1_0000 && a.ttl < 0x1_0000_0000 && len < 0x1_0000
    ensures |h| == 10
  {
    PutBE16(a.rtype) + PutBE16(a.rclass) + PutBE32(a.ttl) + PutBE16(len)
  }

  /** What stands between the name of an answer and the end of its data, up to the name of an exchange. */
  function AnswerBody(a: AnswerSpec, dict: Dictionary): bytes
    requires LegalAnswer(a) && Truthful(dict)
  {
    match a.data
    case Raw(rdata) => AnswerHead(a, |rdata|) + rdata
    case Exchange(preference, host) =>
      NameLengthBounds(dict, host);
      AnswerHead(a, 2 + NameLength(dict, host)) + PutBE16(preference)
  }

  function PutAnswer(out: bytes, dict: Dictionary, a: AnswerSpec): (r: (bytes, Dictionary))
    requires LegalAnswer(a) && Truthful(dict)
    ensures Truthful(r.1)
  {
    var (named, dict') := PutName(out, dict, a.labels);
    var body := AnswerBody(a, dict');
    if a.data.Raw? then (named + body, dict') else PutName(named + body, dict', a.data.host)
  }

  function PutAnswers(out: bytes, dict: Dictionary, answers: seq<AnswerSpec>): bytes
    requires Truthful(dict) && forall i :: 0 <= i < |answers| ==> LegalAnswer(answers[i])
    decreases |answers|
  {
    if answers == [] then out
    else
      assert LegalAnswer(answers[0]);
      var (written, dict') := PutAnswer(out, dict, answers[0]);
      PutAnswers(written, dict', answers[1..])
  }

  function Flags(m: MessageSpec): (f: nat)
    requires Legal(m)
    ensures f < 0x1_0000
  {
    (if m.isResponse then 0x8000 else 0) + m.opcode * 0x800 + m.rcode
  }

  function Header(m: MessageSpec): (h: bytes)
    requires Legal(m)
    ensures |h| == 12
  {
    PutBE16(m.txID) + PutBE16(Flags(m)) + PutBE16(|m.questions|) + PutBE16(|m.answers|) + [0, 0, 0, 0]
  }

  /** A message with both sections compressed by one dictionary. */
  function PutMessage(m: MessageSpec): bytes
    requires Legal(m)
  {
    var (out, dict) := PutQuestions(Header(m), map[], m.questions);
    PutAnswers(out, dict, m.answers)
  }

  // ------------------------------------------------------------------ round trip

  ghost predicate QuestionHolds(q: Question, spec: QuestionSpec) {
    q == Question(Joined(spec.labels, 46), spec.qtype, spec.qclass)
  }

  ghost predicate AnswerHolds(a: Answer, spec: AnswerSpec) {
    && a.name == Joined(spec.labels, 46) && a.rtype == spec.rtype
    && a.rclass == spec.rclass && a.ttl == spec.ttl
    && DataHolds(a.data, spec)
  }

  /** The record data: addresses, texts, exchanges, and hexadecimal for the types without a format. */
  ghost predicate DataHolds(data: RData, spec: AnswerSpec) {
    match spec.data
    case Exchange(preference, host) =>
      spec.rtype == 15 ==> data == Text(Numeral(preference) + [32] + Joined(host, 46))
    case Raw(rdata) =>
      && (IsAddress(spec.rtype, rdata) ==> data == Address(rdata))
      && (spec.rtype == 16 ==>
            forall texts: seq<bytes> :: Texts(texts, rdata) ==> data == Text(Joined(texts, 32)))
      && (!IsAddress(spec.rtype, rdata) && spec.rtype != 15 && spec.rtype != 16 ==> data == Text(Hex(rdata)))
  }

  predicate IsAddress(rtype: nat, rdata: bytes) {
    (rtype == 1 && |rdata| == 4) || (rtype == 28 && |rdata| == 16)
  }

  /** Character strings, and at most a cut-off one behind them. */
  ghost predicate Texts(texts: seq<bytes>, rdata: bytes) {
    && (forall i :: 0 <= i < |texts| ==> |texts[i]| < 256)
    && PutTxt(texts) <= rdata && CutOff(rdata[|PutTxt(texts)|..])
  }

  predicate Readable(spec: AnswerSpec) { spec.rtype !in {2, 5, 12} }

  predicate AllReadable(specs: seq<AnswerSpec>) { forall i :: 0 <= i < |specs| ==> Readable(specs[i]) }

  lemma AllReadableSplit(specs: seq<AnswerSpec>)
    requires specs != []
    ensures AllReadable(specs) <==> Readable(specs[0]) && AllReadable(specs[1..])
  {
    assert specs == [specs[0]] + specs[1..];
  }

  /** The regions of the message where the questions stand, adjacent and in order. */
  ghost predicate QuestionRegions(msg: bytes, off: nat, specs: seq<QuestionSpec>, end: nat)
    decreases |specs|
  {
    if specs == [] then end == off
    else exists named: nat ::
           QuestionRegion(msg, off, named, specs[0]) && QuestionRegions(msg, named + 4, specs[1..], end)
  }

  ghost predicate QuestionRegion(msg: bytes, off: nat, named: nat, spec: QuestionSpec) {
    && NameAt(msg, off, spec.labels, named) && named + 4 <= |msg|
    && BE16(msg, named) == spec.qtype && BE16(msg, named + 2) == spec.qclass
  }

  ghost predicate AnswerRegions(msg: bytes, off: nat, specs: seq<AnswerSpec>, end: nat)
    decreases |specs|
  {
    if specs == [] then end == off
    else exists named: nat, next: nat ::
           AnswerRegion(msg, off, named, specs[0], next) && AnswerRegions(msg, next, specs[1..], end)
  }

  ghost predicate AnswerRegion(msg: bytes, off: nat, named: nat, spec: AnswerSpec, next: nat) {
    && NameAt(msg, off, spec.labels, named) && named + 10 <= next <= |msg|
    && BE16(msg, named) == spec.rtype && BE16(msg, named + 2) == spec.rclass && BE32(msg, named + 4) == spec.ttl
    && BE16(msg, named + 8) == next - (named + 10)
    && DataRegion(msg, named + 10, spec.data, next)
  }

  ghost predicate DataRegion(msg: bytes, start: nat, data: DataSpec, next: nat)
    requires start <= next <= |msg|
  {
    match data
    case Raw(rdata) => msg[start..next] == rdata
    case Exchange(preference, host) =>
      start + 3 <= next && BE16(msg, start) == preference && NameAt(msg, start + 2, host, next)
  }

  ghost predicate AllQuestions(qs: seq<Question>, specs: seq<QuestionSpec>) {
    |qs| == |specs| && forall i :: 0 <= i < |qs| ==> QuestionHolds(qs[i], specs[i])
  }

  ghost predicate AllAnswers(answers: seq<Answer>, specs: seq<AnswerSpec>) {
    |answers| == |specs| && forall i :: 0 <= i < |answers| ==> AnswerHolds(answers[i], specs[i])
  }

  lemma QuestionRecovered(msg: bytes, off: nat, named: nat, spec: QuestionSpec)
    requires QuestionRegion(msg, off, named, spec)
    ensures QuestionAt(msg, off) == Ok((Question(Joined(spec.labels, 46), spec.qtype, spec.qclass), named + 4))
  {
    DecodesExactlyTheEncoded(msg, off, spec.labels, named);
  }

  lemma DataRecovered(msg: bytes, start: nat, spec: AnswerSpec, next: nat)
    requires start <= next <= |msg| && DataRegion(msg, start, spec.data, next) && Readable(spec)
    ensures DataHolds(FormatRData(msg, spec.rtype, start, next - start), spec)
  {
    hide Decode, TxtStrings, Hex, Joined, Numeral, NameAt;
    match spec.data
    case Exchange(preference, host) =>
      if spec.rtype == 15 { MxRecovered(msg, start, next - start, host, next); }
    case Raw(rdata) =>
      assert start + |rdata| == next;
      if spec.rtype == 16 { TextsRecovered(msg, start, rdata); }
  }

  lemma TextsRecovered(msg: bytes, start: nat, rdata: bytes)
    requires start + |rdata| <= |msg| && msg[start..start + |rdata|] == rdata
    ensures forall texts: seq<bytes> :: Texts(texts, rdata) ==>
      FormatRData(msg, 16, start, |rdata|) == Text(Joined(texts, 32))
  {
    hide Decode, Numeral;
    forall texts: seq<bytes> | Texts(texts, rdata)
      ensures FormatRData(msg, 16, start, |rdata|) == Text(Joined(texts, 32))
    {
      assert rdata == PutTxt(texts) + rdata[|PutTxt(texts)|..];
      TxtRoundTrip(texts, rdata[|PutTxt(texts)|..]);
    }
  }

  /** The exchange of an MX record is read in place, compression included, behind its preference. */
  lemma MxRecovered(msg: bytes, start: nat, len: nat, labels: seq<bytes>, end: nat)
    requires len >= 3 && start + len <= |msg| && NameAt(msg, start + 2, labels, end)
    ensures FormatRData(msg, 15, start, len) == Text(Numeral(BE16(msg, start)) + [32] + Joined(labels, 46))
  {
    DecodesExactlyTheEncoded(msg, start + 2, labels, end);
    assert msg[start..start + len][0] == msg[start] && msg[start..start + len][1] == msg[start + 1];
  }

  ghost predicate Recovered(r: Outcome<(Answer, nat)>, spec: AnswerSpec, next: nat) {
    if Readable(spec) then r.Ok? && AnswerHolds(r.value.0, spec) && r.value.1 == next else r.Crashed?
  }

  lemma AnswerRecovered(msg: bytes, off: nat, named: nat, spec: AnswerSpec, next: nat)
    requires AnswerRegion(msg, off, named, spec, next)
    ensures Recovered(AnswerAt(msg, off), spec, next)
  {
    hide DataHolds, DataRegion;
    DecodesExactlyTheEncoded(msg, off, spec.labels, named);
    if Readable(spec) { DataRecovered(msg, named + 10, spec, next); }
  }

  /** Reading as many questions as stand at an offset recovers each and ends where they end. */
  lemma {:induction false} QuestionsRecovered(msg: bytes, off: nat, specs: seq<QuestionSpec>, end: nat)
    requires QuestionRegions(msg, off, specs, end)
    ensures var r := RecordsAt(QuestionReader(msg), off, |specs|);
      r.Ok? && r.value.1 == end && AllQuestions(r.value.0, specs)
    decreases |specs|
  {
    hide QuestionAt, QuestionRegion;
    if specs != [] {
      var named: nat :| QuestionRegion(msg, off, named, specs[0]) && QuestionRegions(msg, named + 4, specs[1..], end);
      QuestionRecovered(msg, off, named, specs[0]);
      QuestionsRecovered(msg, named + 4, specs[1..], end);
    }
  }

  /** A reader that recovers the answer standing at an offset, or fails if its type cannot be formatted. */
  ghost predicate Recovers(msg: bytes, read: nat -> Outcome<(Answer, nat)>) {
    forall off: nat, named: nat, spec, next: nat ::
      AnswerRegion(msg, off, named, spec, next) ==> Recovered(read(off), spec, next)
  }

  lemma ReaderRecovers(msg: bytes)
    ensures Recovers(msg, AnswerReader(msg))
  {
    hide AnswerRegion, Recovered, AnswerAt;
    forall off: nat, named: nat, spec, next: nat | AnswerRegion(msg, off, named, spec, next)
      ensures Recovered(AnswerReader(msg)(off), spec, next)
    {
      AnswerRecovered(msg, off, named, spec, next);
    }
  }

  /** The same for answers, unless one of them is of a type whose formatting fails. */
  lemma {:induction false} AnswersRecovered(
    msg: bytes, read: nat -> Outcome<(Answer, nat)>, off: nat, specs: seq<AnswerSpec>, end: nat)
    requires Recovers(msg, read) && AnswerRegions(msg, off, specs, end)
    ensures var r := RecordsAt(read, off, |specs|);
      if AllReadable(specs) then r.Ok? && r.value.1 == end && AllAnswers(r.value.0, specs) else r.Crashed?
    decreases |specs|
  {
    hide AnswerRegion, AnswerHolds, Readable;
    if specs != [] {
      var named: nat, next: nat :|
        AnswerRegion(msg, off, named, specs[0], next) && AnswerRegions(msg, next, specs[1..], end);
      AllReadableSplit(specs);
      assert Recovered(read(off), specs[0], next);
      AnswersRecovered(msg, read, next, specs[1..], end);
    }
  }

  lemma AreTruthful(out: bytes, dict: Dictionary)
    requires Points(out, dict)
    ensures Truthful(dict)
  {}

  lemma {:induction false} PutQuestionsRegions(out: bytes, dict: Dictionary, specs: seq<QuestionSpec>, more: bytes)
    requires Points(out, dict) && forall i :: 0 <= i < |specs| ==> LegalQuestion(specs[i])
    ensures var (out', dict') := PutQuestions(out, dict, specs);
      out <= out' && Points(out', dict') && QuestionRegions(out' + more, |out|, specs, |out'|)
    decreases |specs|
  {
    hide NameAt, QuestionRegion, RfcNameAt, RfcEncodes, PointsBelow, PutName;
    AreTruthful(out, dict);
    if specs != [] {
      var spec := specs[0];
      var (named, dict') := PutName(out, dict, spec.labels);
      PutNameEncodes(out, dict, spec.labels);
      var fields := PutBE16(spec.qtype) + PutBE16(spec.qclass);
      var next := named + PutBE16(spec.qtype) + PutBE16(spec.qclass);
      assert next == named + fields;
      PointsExtends(named, fields, dict', |named|);
      PutQuestionsRegions(next, dict', specs[1..], more);
      var out' := PutQuestions(out, dict, specs).0;
      QuestionWritten(named, |out|, spec, out'[|next|..] + more);
      assert out' + more == named + (fields + (out'[|next|..] + more));
    }
  }

  /** A question behind its name. */
  lemma QuestionWritten(named: bytes, off: nat, spec: QuestionSpec, tail: bytes)
    requires LegalQuestion(spec) && NameAt(named, off, spec.labels, |named|)
    ensures var fields := PutBE16(spec.qtype) + PutBE16(spec.qclass);
      QuestionRegion(named + (fields + tail), off, |named|, spec)
  {
    hide NameAt, BE16, PutBE16;
    var fields, k := PutBE16(spec.qtype) + PutBE16(spec.qclass), |named|;
    var msg := named + (fields + tail);
    NameAtExtends(named, fields + tail, off, spec.labels, |named|);
    assert msg[k..k + 2] == PutBE16(spec.qtype) && msg[k + 2..k + 4] == PutBE16(spec.qclass);
    BE16Written(msg, k, spec.qtype);
    BE16Written(msg, k + 2, spec.qclass);
  }

  lemma {:induction false} PutAnswersRegions(out: bytes, dict: Dictionary, specs: seq<AnswerSpec>)
    requires Points(out, dict) && forall i :: 0 <= i < |specs| ==> LegalAnswer(specs[i])
    ensures var msg := PutAnswers(out, dict, specs);
      out <= msg && AnswerRegions(msg, |out|, specs, |msg|)
    decreases |specs|
  {
    hide AnswerRegion, NameAt, PutAnswer, RfcNameAt;
    if specs != [] {
      var spec := specs[0];
      var (written, dict') := PutAnswer(out, dict, spec);
      var msg := PutAnswers(out, dict, specs);
      PutAnswerPoints(out, dict, spec);
      PutAnswersRegions(written, dict', specs[1..]);
      assert msg == written + msg[|written|..];
      PutAnswerRegion(out, dict, spec, msg[|written|..]);
      var named := |PutName(out, dict, spec.labels).0|;
      assert AnswerRegion(msg, |out|, named, spec, |written|);
    }
  }

  /** Writing an answer keeps the dictionary truthful. */
  lemma PutAnswerPoints(out: bytes, dict: Dictionary, a: AnswerSpec)
    requires Points(out, dict) && LegalAnswer(a)
    ensures var (written, dict') := PutAnswer(out, dict, a);
      out <= written && Points(written, dict')
  {
    hide PutName, AnswerBody, NameAt, RfcNameAt, RfcEncodes, PointsBelow;
    AreTruthful(out, dict);
    var (named, dict') := PutName(out, dict, a.labels);
    PutNameEncodes(out, dict, a.labels);
    AreTruthful(named, dict');
    var body := AnswerBody(a, dict');
    PointsExtends(named, body, dict', |named|);
    if a.data.Exchange? { PutNameEncodes(named + body, dict', a.data.host); }
  }

  /** A written answer stands where it was written, whatever follows. */
  lemma PutAnswerRegion(out: bytes, dict: Dictionary, a: AnswerSpec, tail: bytes)
    requires Points(out, dict) && LegalAnswer(a)
    ensures var (written, dict') := PutAnswer(out, dict, a);
      AnswerRegion(written + tail, |out|, |PutName(out, dict, a.labels).0|, a, |written|)
  {
    hide PutName, NameAt, RfcNameAt, RfcEncodes, PointsBelow, AnswerHead, BE16, BE32, PutBE16, PutBE32;
    AreTruthful(out, dict);
    var (named, dict') := PutName(out, dict, a.labels);
    PutNameEncodes(out, dict, a.labels);
    AreTruthful(named, dict');
    var written := PutAnswer(out, dict, a).0;
    var msg := written + tail;
    match a.data
    case Raw(rdata) =>
      HeadRead(named, a, |rdata|, rdata + tail);
      assert msg == named + (AnswerHead(a, |rdata|) + (rdata + tail));
      NameAtExtends(named, AnswerHead(a, |rdata|) + (rdata + tail), |out|, a.labels, |named|);
      assert msg[|named| + 10..|written|] == rdata;
    case Exchange(preference, host) =>
      ExchangeRegion(named, dict', a, tail);
      NameLengthBounds(dict', host);
      var rest := written[|named|..] + tail;
      assert msg == named + rest;
      NameAtExtends(named, rest, |out|, a.labels, |named|);
  }

  /** The fixed fields behind a name. */
  lemma HeadRead(named: bytes, a: AnswerSpec, len: nat, tail: bytes)
    requires a.rtype < 0x1_0000 && a.rclass < 0x1_0000 && a.ttl < 0x1_0000_0000 && len < 0x1_0000
    ensures var msg, k := named + (AnswerHead(a, len) + tail), |named|;
      && BE16(msg, k) == a.rtype && BE16(msg, k + 2) == a.rclass && BE32(msg, k + 4) == a.ttl
      && BE16(msg, k + 8) == len
  {
    hide BE16, BE32, PutBE16, PutBE32;
    var h, k := AnswerHead(a, len), |named|;
    var msg := named + (h + tail);
    var rtype, rclass, ttl, size := PutBE16(a.rtype), PutBE16(a.rclass), PutBE32(a.ttl), PutBE16(len);
    assert h == rtype + rclass + ttl + size;
    assert h[..2] == rtype;
    assert h[2..4] == rclass;
    assert h[4..8] == ttl;
    assert h[8..10] == size;
    assert msg[k..k + 10] == h;
    SubSlice(msg, k, k + 10, 0, 2);
    SubSlice(msg, k, k + 10, 2, 4);
    SubSlice(msg, k, k + 10, 4, 8);
    SubSlice(msg, k, k + 10, 8, 10);
    BE16Written(msg, k, a.rtype);
    BE16Written(msg, k + 2, a.rclass);
    BE32Written(msg, k + 4, a.ttl);
    BE16Written(msg, k + 8, len);
  }

  /** An MX answer behind its name: the fixed fields, the preference, and the exchange up to the end. */
  lemma ExchangeRegion(named: bytes, dict: Dictionary, a: AnswerSpec, tail: bytes)
    requires Points(named, dict) && LegalAnswer(a) && a.data.Exchange? && Truthful(dict)
    ensures var body := AnswerBody(a, dict);
      var written := PutName(named + body, dict, a.data.host).0;
      var msg, k := written + tail, |named|;
      && named <= written && k + 13 <= |written|
      && BE16(msg, k) == a.rtype && BE16(msg, k + 2) == a.rclass && BE32(msg, k + 4) == a.ttl
      && BE16(msg, k + 8) == |written| - (k + 10)
      && BE16(msg, k + 10) == a.data.preference && NameAt(msg, k + 12, a.data.host, |written|)
  {
    hide PutName, NameAt, RfcNameAt, RfcEncodes, PointsBelow, AnswerHead, BE16, BE32, PutBE32;
    var host, pref := a.data.host, PutBE16(a.data.preference);
    NameLengthBounds(dict, host);
    var len := 2 + NameLength(dict, host);
    var head, body := AnswerHead(a, len), AnswerBody(a, dict);
    var before := named + body;
    PointsExtends(named, body, dict, |named|);
    PutNameEncodes(before, dict, host);
    PutNameLength(before, dict, host);
    var written := PutName(before, dict, host).0;
    var msg, rest := written + tail, written[|before|..] + tail;
    assert msg == named + (head + (pref + rest));
    HeadRead(named, a, len, pref + rest);
    assert msg[|named| + 10..|named| + 12] == pref;
    BE16Written(msg, |named| + 10, a.data.preference);
    NameAtExtends(written, tail, |before|, host, |written|);
  }

  lemma FlagsRead(m: MessageSpec)
    requires Legal(m)
    ensures Flags(m) >= 0x8000 <==> m.isResponse
    ensures Flags(m) / 0x800 % 16 == m.opcode && Flags(m) % 16 == m.rcode
  {
    assert Flags(m) / 0x800 == (if m.isResponse then 16 else 0) + m.opcode;
    assert Flags(m) == 16 * ((if m.isResponse then 0x800 else 0) + m.opcode * 0x80) + m.rcode;
  }

  lemma HeaderRead(m: MessageSpec, rest: bytes)
    requires Legal(m)
    ensures var msg := Header(m) + rest;
      && BE16(msg, 0) == m.txID && BE16(msg, 2) == Flags(m)
      && BE16(msg, 4) == |m.questions| && BE16(msg, 6) == |m.answers|
  {
    var h := Header(m);
    assert h[..2] == PutBE16(m.txID) && h[2..4] == PutBE16(Flags(m)) && h[4..6] == PutBE16(|m.questions|)
      && h[6..8] == PutBE16(|m.answers|);
  }

  /**
   Round trip of whole messages with compression: the parser recovers every header field, question and
   answer, its data included, if and only if no answer is an NS, CNAME or PTR record, and fails at run time otherwise.
   */
  lemma MessageRoundTrip(m: MessageSpec)
    requires Legal(m)
    ensures var r := Parsed(PutMessage(m));
      if AllReadable(m.answers) then
        && r.Ok?
        && r.value.txID == m.txID && r.value.isResponse == m.isResponse
        && r.value.opcode == m.opcode && r.value.rcode == m.rcode
        && AllQuestions(r.value.questions, m.questions)
        && AllAnswers(r.value.answers, m.answers)
      else r.Crashed?
  {
    hide QuestionRegions, AnswerRegions, AllQuestions, AllAnswers, PutName, AllReadable, Recovers;
    var h := Header(m);
    var (out, dict) := PutQuestions(h, map[], m.questions);
    var msg := PutMessage(m);
    PutQuestionsRegions(h, map[], m.questions, []);
    PutAnswersRegions(out, dict, m.answers);
    var more := msg[|out|..];
    assert msg == out + more;
    PutQuestionsRegions(h, map[], m.questions, more);
    assert h <= out <= msg;
    assert msg == h + msg[12..];
    HeaderRead(m, msg[12..]);
    FlagsRead(m);
    QuestionsRecovered(msg, 12, m.questions, |out|);
    ReaderRecovers(msg);
    AnswersRecovered(msg, AnswerReader(msg), |out|, m.answers, |msg|);
  }

  // ------------------------------------------------------------------ exactly which messages are read

  ghost predicate NoNameAt(msg: bytes, off: nat) {
    forall labels: seq<bytes>, end: nat :: !NameAt(msg, off, labels, end)
  }

  /** A name can be read, but fewer than `room` bytes are left behind it. */
  ghost predicate NameThenShort(msg: bytes, off: nat, room: nat) {
    exists labels: seq<bytes>, end: nat :: NameAt(msg, off, labels, end) && end + room > |msg|
  }

  /** A name and the fixed fields of an answer can be read, but its data runs over the end. */
  ghost predicate DataOverruns(msg: bytes, off: nat) {
    exists labels: seq<bytes>, end: nat ::
      NameAt(msg, off, labels, end) && end + 10 <= |msg| && end + 10 + BE16(msg, end + 8) > |msg|
  }

  lemma NameExactly(msg: bytes, off: nat)
    ensures Decode(msg, off).Decoded? ==> NameAt(msg, off, Decode(msg, off).labels, Decode(msg, off).after)
    ensures forall labels: seq<bytes>, end: nat ::
      NameAt(msg, off, labels, end) ==> Decode(msg, off) == Decoded(labels, end)
    ensures NoNameAt(msg, off) <==> !Decode(msg, off).Decoded?
  {
    hide NameAt, Decode;
    forall labels: seq<bytes>, end: nat
      ensures Decode(msg, off) == Decoded(labels, end) <==> NameAt(msg, off, labels, end)
    {
      DecodesExactlyTheEncoded(msg, off, labels, end);
    }
  }

  /** One question: where it stands, or why it does not. */
  lemma QuestionExactly(msg: bytes, off: nat)
    ensures QuestionAt(msg, off).Ok? ==>
      var name, (q, next) := Decode(msg, off), QuestionAt(msg, off).value;
      && name.Decoded? && next == name.after + 4
      && QuestionRegion(msg, off, name.after, QuestionSpec(name.labels, q.qtype, q.qclass))
    ensures QuestionAt(msg, off) == Err(QuestionTruncated) <==> NameThenShort(msg, off, 4)
    ensures QuestionAt(msg, off) == Err(QuestionName(Decode(msg, off))) <==> NoNameAt(msg, off)
    ensures QuestionAt(msg, off).Ok? || QuestionAt(msg, off) == Err(QuestionTruncated)
         || QuestionAt(msg, off) == Err(QuestionName(Decode(msg, off)))
  {
    hide NameAt, Decode, NoNameAt;
    NameExactly(msg, off);
  }

  /** How far a section of questions can be read, and how it ends. */
  lemma {:induction false} QuestionsRead(msg: bytes, off: nat, n: nat) returns (specs: seq<QuestionSpec>, mid: nat)
    ensures |specs| <= n && QuestionRegions(msg, off, specs, mid)
    ensures var r := RecordsAt(QuestionReader(msg), off, n);
      if |specs| == n then r.Ok? && r.value.1 == mid
      else QuestionAt(msg, mid).Err? && r == Err(QuestionAt(msg, mid).error)
    decreases n
  {
    hide QuestionRegion, QuestionAt;
    if n == 0 {
      specs, mid := [], off;
    } else {
      QuestionExactly(msg, off);
      match QuestionAt(msg, off)
      case Ok((q, next)) =>
        var name := Decode(msg, off);
        var rest: seq<QuestionSpec>;
        rest, mid := QuestionsRead(msg, next, n - 1);
        specs := [QuestionSpec(name.labels, q.qtype, q.qclass)] + rest;
        assert specs[1..] == rest;
        assert QuestionRegion(msg, off, name.after, specs[0]) && QuestionRegions(msg, name.after + 4, specs[1..], mid);
      case Err(_) => specs, mid := [], off;
    }
  }

  /** A section that stands up to a place where the next question cannot be read fails as that question does. */
  lemma {:induction false} QuestionsFail(msg: bytes, off: nat, specs: seq<QuestionSpec>, mid: nat, n: nat)
    requires QuestionRegions(msg, off, specs, mid) && |specs| < n && QuestionAt(msg, mid).Err?
    ensures RecordsAt(QuestionReader(msg), off, n) == Err(QuestionAt(msg, mid).error)
    decreases |specs|
  {
    hide QuestionRegion, QuestionAt;
    if specs != [] {
      var named: nat :| QuestionRegion(msg, off, named, specs[0]) && QuestionRegions(msg, named + 4, specs[1..], mid);
      QuestionRecovered(msg, off, named, specs[0]);
      QuestionsFail(msg, named + 4, specs[1..], mid, n - 1);
    }
  }

  /** Fewer than n questions stand, and then something else comes. */
  ghost predicate QuestionsUpTo(msg: bytes, off: nat, n: nat, mid: nat) {
    exists specs: seq<QuestionSpec> :: |specs| < n && QuestionRegions(msg, off, specs, mid)
  }

  ghost predicate QuestionsStand(msg: bytes, off: nat, n: nat, end: nat) {
    exists specs: seq<QuestionSpec> :: |specs| == n && QuestionRegions(msg, off, specs, end)
  }

  /**
   Exactly when a question section is read, and how it fails: n questions stand one behind the other, or
   fewer do and then a name comes with less than 4 bytes behind it, or no name.
   */
  lemma QuestionsExactly(msg: bytes, off: nat, n: nat)
    ensures var r := RecordsAt(QuestionReader(msg), off, n);
      && (forall end: nat :: r.Ok? && r.value.1 == end <==> QuestionsStand(msg, off, n, end))
      && (r == Err(QuestionTruncated) <==>
            exists mid: nat :: QuestionsUpTo(msg, off, n, mid) && NameThenShort(msg, mid, 4))
      && (r.Err? && r.error.QuestionName? <==>
            exists mid: nat :: QuestionsUpTo(msg, off, n, mid) && NoNameAt(msg, mid))
      && (r.Ok? || r == Err(QuestionTruncated) || (r.Err? && r.error.QuestionName?))
  {
    hide QuestionRegions, QuestionAt, RecordsAt, NameThenShort, NoNameAt;
    var r := RecordsAt(QuestionReader(msg), off, n);
    var specs, mid := QuestionsRead(msg, off, n);
    QuestionExactly(msg, mid);
    forall end: nat | QuestionsStand(msg, off, n, end) ensures r.Ok? && r.value.1 == end {
      var all: seq<QuestionSpec> :| |all| == n && QuestionRegions(msg, off, all, end);
      QuestionsRecovered(msg, off, all, end);
    }
    forall at: nat | QuestionsUpTo(msg, off, n, at) && (NameThenShort(msg, at, 4) || NoNameAt(msg, at))
      ensures QuestionAt(msg, at).Err? && r == Err(QuestionAt(msg, at).error)
      ensures QuestionAt(msg, at) == Err(QuestionTruncated) <==> NameThenShort(msg, at, 4)
      ensures QuestionAt(msg, at) == Err(QuestionName(Decode(msg, at))) <==> NoNameAt(msg, at)
    {
      QuestionExactly(msg, at);
      var some: seq<QuestionSpec> :| |some| < n && QuestionRegions(msg, off, some, at);
      QuestionsFail(msg, off, some, at, n);
    }
  }

  // ------------------------------------------------------------------ answers

  /** What an answer that can be read was made of. */
  function SpecAt(msg: bytes, off: nat): (spec: AnswerSpec)
    requires Decode(msg, off).Decoded? && Decode(msg, off).after + 10 <= |msg|
    requires Decode(msg, off).after + 10 + BE16(msg, Decode(msg, off).after + 8) <= |msg|
  {
    var k := Decode(msg, off).after;
    AnswerSpec(Decode(msg, off).labels, BE16(msg, k), BE16(msg, k + 2), BE32(msg, k + 4),
               Raw(msg[k + 10..k + 10 + BE16(msg, k + 8)]))
  }

  /** One answer: where it stands, or why it does not. */
  lemma AnswerExactly(msg: bytes, off: nat)
    ensures AnswerAt(msg, off).Ok? || AnswerAt(msg, off).Crashed? ==>
      var k := Decode(msg, off).after;
      && Decode(msg, off).Decoded? && k + 10 <= |msg| && k + 10 + BE16(msg, k + 8) <= |msg|
      && AnswerRegion(msg, off, k, SpecAt(msg, off), k + 10 + BE16(msg, k + 8))
      && (AnswerAt(msg, off).Ok? ==> AnswerAt(msg, off).value.1 == k + 10 + BE16(msg, k + 8))
      && (AnswerAt(msg, off).Ok? <==> Readable(SpecAt(msg, off)))
    ensures AnswerAt(msg, off) == Err(AnswerTruncated) <==> NameThenShort(msg, off, 10)
    ensures AnswerAt(msg, off) == Err(RDataTruncated) <==> DataOverruns(msg, off)
    ensures AnswerAt(msg, off) == Err(AnswerName(Decode(msg, off))) <==> NoNameAt(msg, off)
    ensures AnswerAt(msg, off).Err? ==>
      AnswerAt(msg, off).error in {AnswerTruncated, RDataTruncated, AnswerName(Decode(msg, off))}
  {
    hide NameAt, Decode, NoNameAt, TxtStrings, Hex, Joined, Numeral, BE16, BE32;
    NameExactly(msg, off);
  }

  /** How far a section of answers can be read, and how it ends. */
  lemma {:induction false} AnswersRead(msg: bytes, off: nat, n: nat) returns (specs: seq<AnswerSpec>, mid: nat)
    ensures |specs| <= n && AnswerRegions(msg, off, specs, mid) && AllReadable(specs)
    ensures var r := RecordsAt(AnswerReader(msg), off, n);
      if |specs| == n then r.Ok? && r.value.1 == mid else FailsLike(r, AnswerAt(msg, mid))
    decreases n
  {
    hide AnswerRegion, AnswerAt, SpecAt, Readable;
    if n == 0 {
      specs, mid := [], off;
    } else {
      AnswerExactly(msg, off);
      if AnswerAt(msg, off).Ok? {
        var next := AnswerAt(msg, off).value.1;
        var rest: seq<AnswerSpec>;
        rest, mid := AnswersRead(msg, next, n - 1);
        specs := [SpecAt(msg, off)] + rest;
        assert specs[1..] == rest;
        AllReadableSplit(specs);
        assert AnswerRegion(msg, off, Decode(msg, off).after, specs[0], next)
            && AnswerRegions(msg, next, specs[1..], mid);
      } else {
        specs, mid := [], off;
      }
    }
  }

  /** A section fails as one of its answers does. */
  ghost predicate FailsLike(r: Outcome<(seq<Answer>, nat)>, one: Outcome<(Answer, nat)>) {
    match one
    case Ok(_) => false
    case Err(e) => r == Err(e)
    case Crashed => r == Crashed
  }

  lemma {:induction false} AnswersFail(msg: bytes, off: nat, specs: seq<AnswerSpec>, mid: nat, n: nat)
    requires AnswerRegions(msg, off, specs, mid) && AllReadable(specs) && |specs| < n && !AnswerAt(msg, mid).Ok?
    ensures FailsLike(RecordsAt(AnswerReader(msg), off, n), AnswerAt(msg, mid))
    decreases |specs|
  {
    hide AnswerRegion, AnswerAt, Readable, AnswerHolds;
    if specs != [] {
      var named: nat, next: nat :|
        AnswerRegion(msg, off, named, specs[0], next) && AnswerRegions(msg, next, specs[1..], mid);
      AllReadableSplit(specs);
      AnswerRecovered(msg, off, named, specs[0], next);
      AnswersFail(msg, next, specs[1..], mid, n - 1);
    }
  }

  /** Fewer than n answers stand, all of types that can be formatted, and then something else comes. */
  ghost predicate AnswersUpTo(msg: bytes, off: nat, n: nat, mid: nat) {
    exists specs: seq<AnswerSpec> :: |specs| < n && AnswerRegions(msg, off, specs, mid) && AllReadable(specs)
  }

  ghost predicate AnswersStand(msg: bytes, off: nat, n: nat, end: nat) {
    exists specs: seq<AnswerSpec> :: |specs| == n && AnswerRegions(msg, off, specs, end) && AllReadable(specs)
  }

  /** An answer of a type whose formatting fails stands at an offset. */
  ghost predicate UnreadableAt(msg: bytes, off: nat) {
    exists named: nat, spec, next: nat :: AnswerRegion(msg, off, named, spec, next) && !Readable(spec)
  }

  /** Exactly how one answer fails. */
  ghost predicate AnswerFailsAt(msg: bytes, off: nat, r: Outcome<(seq<Answer>, nat)>) {
    || (r == Crashed && UnreadableAt(msg, off))
    || (r == Err(AnswerTruncated) && NameThenShort(msg, off, 10))
    || (r == Err(RDataTruncated) && DataOverruns(msg, off))
    || (r == Err(AnswerName(Decode(msg, off))) && NoNameAt(msg, off))
  }

  lemma AnswerFailure(msg: bytes, off: nat, r: Outcome<(seq<Answer>, nat)>)
    ensures AnswerFailsAt(msg, off, r) <==> FailsLike(r, AnswerAt(msg, off))
  {
    hide AnswerAt, NameThenShort, DataOverruns, NoNameAt, AnswerRegion, Decode, Readable;
    AnswerExactly(msg, off);
    if UnreadableAt(msg, off) {
      var named: nat, spec, next: nat :| AnswerRegion(msg, off, named, spec, next) && !Readable(spec);
      AnswerRecovered(msg, off, named, spec, next);
    }
  }

  /**
   Exactly when an answer section is read, and how it fails: n answers of readable types stand one behind
   the other; or fewer do and then one of another type comes, or a name with less than 10 bytes behind it,
   or an answer whose data runs over the end, or no name.
   */
  lemma AnswersExactly(msg: bytes, off: nat, n: nat)
    ensures var r := RecordsAt(AnswerReader(msg), off, n);
      && (forall end: nat :: r.Ok? && r.value.1 == end <==> AnswersStand(msg, off, n, end))
      && (!r.Ok? <==> exists mid: nat :: AnswersUpTo(msg, off, n, mid) && AnswerFailsAt(msg, mid, r))
      && (forall mid: nat, other :: AnswersUpTo(msg, off, n, mid) && AnswerFailsAt(msg, mid, other) ==> r == other)
  {
    hide AnswerRegions, AnswerAt, RecordsAt, AnswerFailsAt, AllReadable;
    var r := RecordsAt(AnswerReader(msg), off, n);
    var specs, mid := AnswersRead(msg, off, n);
    AnswerFailure(msg, mid, r);
    ReaderRecovers(msg);
    forall end: nat | AnswersStand(msg, off, n, end) ensures r.Ok? && r.value.1 == end {
      var all: seq<AnswerSpec> :| |all| == n && AnswerRegions(msg, off, all, end) && AllReadable(all);
      AnswersRecovered(msg, AnswerReader(msg), off, all, end);
    }
    forall at: nat, other | AnswersUpTo(msg, off, n, at) && AnswerFailsAt(msg, at, other) ensures r == other && !r.Ok? {
      var some: seq<AnswerSpec> :| |some| < n && AnswerRegions(msg, off, some, at) && AllReadable(some);
      AnswerFailure(msg, at, other);
      AnswersFail(msg, off, some, at, n);
    }
  }

  /**
   Exactly which messages are parsed: those of at least 12 bytes in which as many questions as announced
   stand from byte 12 on, and behind them as many answers, all of readable types. The header fields are
   those of section 4.1.1 of RFC 1035.
   */
  lemma ParsedExactly(msg: bytes)
    ensures Parsed(msg) == Err(TooShort) <==> |msg| < 12
    ensures |msg| >= 12 ==>
      (Parsed(msg).Ok? <==>
        exists mid: nat, end: nat ::
          QuestionsStand(msg, 12, BE16(msg, 4), mid) && AnswersStand(msg, mid, BE16(msg, 6), end))
    ensures Parsed(msg).Ok? ==>
      var d := Parsed(msg).value;
      && d.txID == BE16(msg, 0)
      && (d.isResponse <==> msg[2] >= 128) && d.opcode == (msg[2] as int) / 8 % 16 && d.rcode == (msg[3] as int) % 16
      && |d.questions| == BE16(msg, 4) && |d.answers| == BE16(msg, 6)
  {
    hide RecordsAt, QuestionsStand, AnswersStand, QuestionReader, AnswerReader;
    if |msg| >= 12 {
      QuestionsExactly(msg, 12, BE16(msg, 4));
      var qs := RecordsAt(QuestionReader(msg), 12, BE16(msg, 4));
      if qs.Ok? {
        AnswersExactly(msg, qs.value.1, BE16(msg, 6));
        SectionLength(QuestionReader(msg), 12, BE16(msg, 4));
        SectionLength(AnswerReader(msg), qs.value.1, BE16(msg, 6));
        assert QuestionsStand(msg, 12, BE16(msg, 4), qs.value.1);
        var answers := RecordsAt(AnswerReader(msg), qs.value.1, BE16(msg, 6));
        assert Parsed(msg).Ok? <==> answers.Ok?;
        assert answers.Ok? ==> AnswersStand(msg, qs.value.1, BE16(msg, 6), answers.value.1);
      } else {
        assert !Parsed(msg).Ok?;
      }
      NotTooShort(msg);
      FlagBits(msg[2], msg[3]);
    }
  }

  lemma FlagBits(high: byte, low: byte)
    ensures var flags := (high as int) * 256 + low;
      && (flags >= 0x8000 <==> high >= 128) && flags / 0x800 % 16 == (high as int) / 8 % 16
      && flags % 16 == (low as int) % 16
  {
    var flags, q := (high as int) * 256 + low, (high as int) / 8;
    assert flags == 0x800 * q + ((high as int) % 8 * 256 + low);
    assert flags / 0x800 == q;
    assert flags == 16 * ((high as int) * 16 + (low as int) / 16) + (low as int) % 16;
  }

  lemma {:induction false} SectionLength<T>(read: nat -> Outcome<(T, nat)>, off: nat, n: nat)
    ensures RecordsAt(read, off, n).Ok? ==> |RecordsAt(read, off, n).value.0| == n
    decreases n
  {
    if n > 0 && read(off).Ok? { SectionLength(read, read(off).value.1, n - 1); }
  }

  /** No section fails for want of a header. */
  lemma NotTooShort(msg: bytes)
    requires |msg| >= 12
    ensures Parsed(msg) != Err(TooShort)
  {
    hide RecordsAt, QuestionsStand, AnswersStand, QuestionsUpTo, AnswersUpTo, NameThenShort, NoNameAt, DataOverruns;
    QuestionsExactly(msg, 12, BE16(msg, 4));
    var qs := RecordsAt(QuestionReader(msg), 12, BE16(msg, 4));
    if qs.Ok? { AnswersExactly(msg, qs.value.1, BE16(msg, 6)); }
  }
}
