/** The MongoDB message loop and decoders: internal/protocol/mongodb/parser.go. */
module MongoDb {
  import opened Common
  import opened Framing

  /** `operation` is None for the fixed name "query" of OP_QUERY, otherwise the command name. */
  datatype Event = Event(dir: Dir, operation: Option<bytes>, table: bytes)

  const HEADER: nat := 16
  const OP_MSG: nat := 2013
  const OP_QUERY: nat := 2004
  const BSON_STRING: byte := 0x02

  /** readCString: empty when there is no terminator. */
  function CString(d: bytes): bytes {
    if NulIndex(d) < 0 then [] else d[..NulIndex(d)]
  }

  /** readCString as the scanning loop it is. */
  method ReadCString(d: bytes) returns (s: bytes)
    ensures s == CString(d)
  {
    for i := 0 to |d|
      invariant 0 !in d[..i]
    {
      if d[i] == 0 {
        assert d == d[..i] + [0] + d[i + 1..];
        NulTerminated(d[..i], d[i + 1..]);
        return d[..i];
      }
      assert d[..i + 1] == d[..i] + [d[i]];
    }
    assert d[..|d|] == d;
    s := [];
  }

  /** extractFirstKey: the first element's name, and its text when it is a string. */
  function FirstKey(doc: bytes): (bytes, bytes) {
    if |doc| < 5 || LE32(doc, 0) < 5 || LE32(doc, 0) > |doc| then ([], [])
    else
      var elem := doc[4..];
      if |elem| < 2 then ([], [])
      else
        var key := CString(elem[1..]);
        if key == [] || |key| + 1 >= |elem| - 1 then (key, [])
        else
          var value := elem[1..][|key| + 1..];
          if elem[0] == BSON_STRING && |value| >= 4 && 0 < LE32(value, 0) && LE32(value, 0) - 1 <= |value| - 4
          then (key, value[4..4 + LE32(value, 0) - 1])
          else (key, [])
  }

  function DecodeOpMsg(body: bytes, fromClient: bool): Option<Event> {
    if |body| < 5 || body[4] != 0 then None
    else
      var (name, collection) := FirstKey(body[5..]);
      if name == [] then None else Some(Event(if fromClient then Request else Response, Some(name), collection))
  }

  function DecodeOpQuery(body: bytes): Option<Event> {
    if |body| < 4 || CString(body[4..]) == [] then None else Some(Event(Request, None, CString(body[4..])))
  }

  function DecodeMessage(opCode: nat, body: bytes, fromClient: bool): Option<Event> {
    if opCode == OP_MSG then DecodeOpMsg(body, fromClient)
    else if opCode == OP_QUERY then DecodeOpQuery(body)
    else None
  }

  function TurnAt(d: bytes, fromClient: bool): Turn<Event> {
    if |d| < HEADER then Stop
    else
      var msgLen := LE32(d, 0);
      if msgLen < HEADER || msgLen > |d| then Stop
      else Take(msgLen, DecodeMessage(LE32(d, 12), d[HEADER..msgLen], fromClient))
  }

  function Messages(fromClient: bool): Framer<Event> { d => TurnAt(d, fromClient) }

  lemma MessagesSelfDelimiting(fromClient: bool)
    ensures SelfDelimiting(Messages(fromClient))
  {
    var f := Messages(fromClient);
    forall d: bytes, x: bytes | f(d).Take? ensures 0 < f(d).n <= |d| && f(Cut(f, d, x)) == f(d) {
      var n := f(d).n;
      assert (d[..n] + x)[HEADER..n] == d[HEADER..n];
    }
  }

  method Parse(data: bytes, fromClient: bool) returns (events: seq<Event>)
    ensures events == Run(Messages(fromClient), data).0
  {
    hide Run, SelfDelimiting, DecodeMessage, LE32;
    events := [];
    var d := data;
    ghost var f := Messages(fromClient);
    assert [] + Run(f, d).0 == Run(f, d).0;
    MessagesSelfDelimiting(fromClient);
    while |d| >= HEADER
      invariant events + Run(f, d).0 == Run(f, data).0
      decreases |d|
    {
      var msgLen := LE32(d, 0);
      if msgLen < HEADER || msgLen > |d| { break; }
      var ev := DecodeMessage(LE32(d, 12), d[HEADER..msgLen], fromClient);
      LoopStep(f, d, events, msgLen, ev);
      events := events + OptionSeq(ev);
      d := d[msgLen..];
    }
    LoopEnd(f, d, events);
  }

  datatype Message = Message(requestID: nat, responseTo: nat, opCode: nat, body: bytes)

  predicate Legal(m: Message) {
    && m.requestID < 0x1_0000_0000 && m.responseTo < 0x1_0000_0000 && m.opCode < 0x1_0000_0000
    && 16 + |m.body| < 0x1_0000_0000
  }

  function PutMessage(m: Message): bytes
    requires Legal(m)
  {
    PutLE32(16 + |m.body|) + PutLE32(m.requestID) + PutLE32(m.responseTo) + PutLE32(m.opCode) + m.body
  }

  lemma MessageIsFrame(m: Message, fromClient: bool)
    requires Legal(m)
    ensures IsFrame(Messages(fromClient), PutMessage(m), DecodeMessage(m.opCode, m.body, fromClient))
  {
    var w := PutMessage(m);
    hide DecodeMessage, LE32;
    assert w[0..4] == PutLE32(HEADER + |m.body|) && w[12..16] == PutLE32(m.opCode) && w[16..16 + |m.body|] == m.body;
    LE32Written(w, 0, HEADER + |m.body|);
    LE32Written(w, 12, m.opCode);
  }

  /** A stream of messages: one event for each that has one, in order, then what follows. */
  lemma MessagesRoundTrip(ms: seq<Message>, tail: bytes, fromClient: bool)
    requires forall i :: 0 <= i < |ms| ==> Legal(ms[i])
    ensures var f := Messages(fromClient);
      var wire := Concat(seq(|ms|, i requires 0 <= i < |ms| => PutMessage(ms[i])));
      var decoded := seq(|ms|, i requires 0 <= i < |ms| => DecodeMessage(ms[i].opCode, ms[i].body, fromClient));
      Run(f, wire + tail) == (Events(decoded) + Run(f, tail).0, Run(f, tail).1)
  {
    var ws := seq(|ms|, i requires 0 <= i < |ms| => PutMessage(ms[i]));
    var decoded := seq(|ms|, i requires 0 <= i < |ms| => DecodeMessage(ms[i].opCode, ms[i].body, fromClient));
    MessagesSelfDelimiting(fromClient);
    forall i | 0 <= i < |ws| ensures IsFrame(Messages(fromClient), ws[i], decoded[i]) {
      MessageIsFrame(ms[i], fromClient);
    }
    FramesRead(Messages(fromClient), ws, decoded, tail);
  }

  /** A BSON command document whose first element is the string `key: text`. */
  function PutCommand(key: bytes, text: bytes, more: bytes): bytes
    requires 13 + |key| + |text| + |more| < 0x1_0000_0000
  {
    PutLE32(12 + |key| + |text| + |more|) + [2] + key + [0] + PutLE32(|text| + 1) + text + [0] + more + [0]
  }

  lemma FirstKeyRecovered(key: bytes, text: bytes, more: bytes)
    requires 13 + |key| + |text| + |more| < 0x1_0000_0000
    requires key != [] && 0 !in key
    ensures FirstKey(PutCommand(key, text, more)) == (key, text)
  {
    hide LE32, PutLE32, NulIndex;
    var doc := PutCommand(key, text, more);
    var value := PutLE32(|text| + 1) + text + [0] + more + [0];
    assert doc[0..4] == PutLE32(12 + |key| + |text| + |more|);
    LE32Written(doc, 0, 12 + |key| + |text| + |more|);
    var elem := doc[4..];
    assert elem[1..] == key + [0] + value && elem[0] == BSON_STRING;
    NulTerminated(key, value);
    assert (key + [0] + value)[..|key|] == key && (key + [0] + value)[|key| + 1..] == value;
    assert value[0..4] == PutLE32(|text| + 1) && value[4..4 + |text|] == text;
    LE32Written(value, 0, |text| + 1);
  }

  /** OP_MSG with such a document yields the command name and the collection it names. */
  lemma CommandRecovered(flags: nat, key: bytes, text: bytes, more: bytes, fromClient: bool)
    requires flags < 0x1_0000_0000 && 13 + |key| + |text| + |more| < 0x1_0000_0000
    requires key != [] && 0 !in key
    ensures DecodeMessage(2013, PutLE32(flags) + [0] + PutCommand(key, text, more), fromClient)
         == Some(Event(if fromClient then Request else Response, Some(key), text))
  {
    hide FirstKey, PutCommand, PutLE32;
    var doc := PutCommand(key, text, more);
    FirstKeyRecovered(key, text, more);
    assert (PutLE32(flags) + [0] + doc)[5..] == doc;
  }

  /**
   A document whose first element is of another type: an announced length, `kind`, its name, and whatever
   its value is.
   */
  function PutOther(len: nat, kind: byte, key: bytes, value: bytes): bytes
    requires len < 0x1_0000_0000
  {
    PutLE32(len) + [kind] + key + [0] + value
  }

  /** Then the command name is known and the collection is not, whatever length from 5 on is announced. */
  lemma OtherKeyRecovered(len: nat, kind: byte, key: bytes, value: bytes, flags: nat, fromClient: bool)
    requires 5 <= len <= 6 + |key| + |value| && len < 0x1_0000_0000 && flags < 0x1_0000_0000
    requires kind != 2 && key != [] && 0 !in key
    ensures FirstKey(PutOther(len, kind, key, value)) == (key, [])
    ensures DecodeMessage(2013, PutLE32(flags) + [0] + PutOther(len, kind, key, value), fromClient)
         == Some(Event(if fromClient then Request else Response, Some(key), []))
  {
    hide LE32, PutLE32, NulIndex;
    var doc := PutOther(len, kind, key, value);
    assert doc[0..4] == PutLE32(len) && |doc| == 6 + |key| + |value|;
    LE32Written(doc, 0, len);
    var elem := doc[4..];
    assert elem[1..] == key + [0] + value && elem[0] == kind;
    NulTerminated(key, value);
    assert (key + [0] + value)[..|key|] == key;
    assert (PutLE32(flags) + [0] + doc)[5..] == doc;
  }

  /** Only the document section is looked at: another section kind, or an empty first name, gives nothing. */
  lemma OtherSectionSilent(flags: nat, kind: byte, rest: bytes, fromClient: bool)
    requires flags < 0x1_0000_0000 && kind != 0
    ensures DecodeMessage(2013, PutLE32(flags) + [kind] + rest, fromClient) == None
  {}

  /** OP_QUERY gives the collection it names, always as a request; without a name nothing. */
  lemma QueryRecovered(flags: nat, name: bytes, more: bytes, fromClient: bool)
    requires flags < 0x1_0000_0000 && 0 !in name
    ensures DecodeMessage(2004, PutLE32(flags) + name + [0] + more, fromClient)
         == if name == [] then None else Some(Event(Request, None, name))
  {
    var body := PutLE32(flags) + name + [0] + more;
    assert body[4..] == name + [0] + more;
    NulTerminated(name, more);
    assert (name + [0] + more)[..|name|] == name;
  }

  lemma OtherOpcodesSilent(opCode: nat, body: bytes, fromClient: bool)
    requires opCode != 2013 && opCode != 2004
    ensures DecodeMessage(opCode, body, fromClient) == None
  {}

  lemma TakenMessage(d: bytes, fromClient: bool) returns (m: Message)
    requires Messages(fromClient)(d).Take?
    ensures Legal(m) && PutMessage(m) <= d
  {
    hide DecodeMessage, LE32, PutLE32;
    var n := LE32(d, 0);
    m := Message(LE32(d, 4), LE32(d, 8), LE32(d, 12), d[16..n]);
    LE32Back(d, 0);
    LE32Back(d, 4);
    LE32Back(d, 8);
    LE32Back(d, 12);
    assert PutMessage(m) == d[0..4] + d[4..8] + d[8..12] + d[12..16] + d[16..n];
    assert d[0..4] + d[4..8] + d[8..12] + d[12..16] + d[16..n] == d[..n];
  }

  /** The loop takes a message exactly when an encoded one is at the front. */
  lemma TakesExactly(d: bytes, fromClient: bool)
    ensures Messages(fromClient)(d).Take? <==> exists m :: Legal(m) && PutMessage(m) <= d
  {
    if Messages(fromClient)(d).Take? { var m := TakenMessage(d, fromClient); }
    hide DecodeMessage, TurnAt, PutMessage, SelfDelimiting;
    MessagesSelfDelimiting(fromClient);
    forall m: Message | Legal(m) && PutMessage(m) <= d ensures Messages(fromClient)(d).Take? {
      MessageIsFrame(m, fromClient);
      FrameInFront(Messages(fromClient), PutMessage(m), DecodeMessage(m.opCode, m.body, fromClient), d);
    }
  }

  /** A string that runs over the document, or has no room for its terminator, gives the name alone. */
  lemma StringCutOff(key: bytes, len: nat, cut: bytes)
    requires len < 0x1_0000_0000 && 10 + |key| + |cut| < 0x1_0000_0000
    requires key != [] && 0 !in key && (len == 0 || |cut| < len - 1)
    ensures var n := 10 + |key| + |cut|;
      FirstKey(PutLE32(n) + [2] + key + [0] + PutLE32(len) + cut) == (key, [])
  {
    hide LE32, PutLE32, NulIndex;
    var n := 10 + |key| + |cut|;
    var value := PutLE32(len) + cut;
    var doc := PutLE32(n) + [2] + key + [0] + PutLE32(len) + cut;
    assert doc[0..4] == PutLE32(n) && |doc| == n;
    LE32Written(doc, 0, n);
    var elem := doc[4..];
    assert elem[1..] == key + [0] + value && elem[0] == 2;
    NulTerminated(key, value);
    assert (key + [0] + value)[..|key|] == key && (key + [0] + value)[|key| + 1..] == value;
    assert value[0..4] == PutLE32(len);
    LE32Written(value, 0, len);
  }

  /** The terminator itself is not looked for: a string that ends with the document is still its text. */
  lemma StringToTheEnd(key: bytes, text: bytes)
    requires 10 + |key| + |text| < 0x1_0000_0000 && key != [] && 0 !in key
    ensures var n := 10 + |key| + |text|;
      FirstKey(PutLE32(n) + [2] + key + [0] + PutLE32(|text| + 1) + text) == (key, text)
  {
    hide LE32, PutLE32, NulIndex;
    var n, len := 10 + |key| + |text|, |text| + 1;
    var value := PutLE32(len) + text;
    var doc := PutLE32(n) + [2] + key + [0] + PutLE32(len) + text;
    assert doc[0..4] == PutLE32(n) && |doc| == n;
    LE32Written(doc, 0, n);
    var elem := doc[4..];
    assert elem[1..] == key + [0] + value && elem[0] == 2;
    NulTerminated(key, value);
    assert (key + [0] + value)[..|key|] == key && (key + [0] + value)[|key| + 1..] == value;
    assert value[0..4] == PutLE32(len) && value[4..4 + |text|] == text;
    LE32Written(value, 0, len);
  }

  /** No document at all: too short, or a length that is too small or beyond the data. */
  lemma NoDocument(doc: bytes)
    requires |doc| < 5 || LE32(doc, 0) < 5 || LE32(doc, 0) > |doc|
    ensures FirstKey(doc) == ([], [])
  {}
}
