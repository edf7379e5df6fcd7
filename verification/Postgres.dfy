/** The PostgreSQL message loop and decoders: internal/protocol/postgres/parser.go. */
module Postgres {
  import opened Common
  import opened Framing

  datatype Operation = SimpleQuery | Prepare | ErrorResponse
  datatype Event = Event(dir: Dir, operation: Operation, statement: bytes, errorMsg: bytes)

  const TAG_Q: byte := 81
  const TAG_P: byte := 80
  const TAG_E: byte := 69
  const FIELD_S: byte := 83
  const FIELD_C: byte := 67
  const FIELD_M: byte := 77
  const VERSION_3: nat := 0x0003_0000

  /** cstring: up to the first zero byte, or everything when there is none. */
  function CString(b: bytes): bytes {
    if NulIndex(b) < 0 then b else b[..NulIndex(b)]
  }

  // ------------------------------------------------------------------ ErrorResponse fields

  type Field = Entry<byte>

  /** The complete fields up to the terminator, to the end, or to a field that is cut off. */
  function Fields(payload: bytes): seq<Field>
    decreases |payload|
  {
    if payload == [] || payload[0] == 0 then []
    else
      var text := CString(payload[1..]);
      if |text| + 1 > |payload| - 1 then []
      else [Entry(payload[0], text)] + Fields(payload[1..][|text| + 1..])
  }

  function ErrorText(payload: bytes): bytes {
    var fields := Fields(payload);
    LastData(fields, FIELD_S) + [32] + LastData(fields, FIELD_C) + [58, 32] + LastData(fields, FIELD_M)
  }

  /** decodeErrorResponse: the loop over the fields with its three variables. */
  method ReadErrorText(payload: bytes) returns (text: bytes)
    ensures text == ErrorText(payload)
  {
    hide LastData, CString;
    var severity: bytes, code: bytes, msg: bytes := [], [], [];
    var p := payload;
    ghost var done: seq<Field> := [];
    LastDataNone<byte>();
    while |p| > 0
      invariant done + Fields(p) == Fields(payload)
      invariant severity == LastData(done, FIELD_S) && code == LastData(done, FIELD_C) && msg == LastData(done, FIELD_M)
      decreases |p|
    {
      var kind := p[0];
      ghost var at := p;
      p := p[1..];
      if kind == 0 { break; }
      var val := CString(p);
      if |val| + 1 > |p| { break; }
      p := p[|val| + 1..];
      assert Fields(at) == [Entry(kind, val)] + Fields(p);
      LastDataSnoc(done, Entry(kind, val));
      done := done + [Entry(kind, val)];
      if kind == FIELD_S { severity := val; }
      else if kind == FIELD_C { code := val; }
      else if kind == FIELD_M { msg := val; }
    }
    assert done == Fields(payload);
    text := severity + [32] + code + [58, 32] + msg;
  }

  function PutFields(fields: seq<Field>): bytes {
    if fields == [] then [] else [fields[0].kind] + fields[0].data + [0] + PutFields(fields[1..])
  }

  lemma FieldInFront(f: Field, rest: bytes)
    requires f.kind != 0 && 0 !in f.data
    ensures Fields([f.kind] + (f.data + [0] + rest)) == [f] + Fields(rest)
  {
    var p := [f.kind] + (f.data + [0] + rest);
    NulTerminated(f.data, rest);
    assert p[1..] == f.data + [0] + rest;
    assert p[1..][..|f.data|] == f.data && p[1..][|f.data| + 1..] == rest;
    assert CString(p[1..]) == f.data;
    hide CString, NulIndex;
    assert p[0] == f.kind;
  }

  /** A terminated list of fields is read back whole, whatever follows the terminator. */
  lemma {:induction false} FieldsRoundTrip(fields: seq<Field>, junk: bytes)
    requires forall i :: 0 <= i < |fields| ==> fields[i].kind != 0 && 0 !in fields[i].data
    ensures Fields(PutFields(fields) + [0] + junk) == fields
  {
    if fields == [] {
      assert (PutFields(fields) + [0] + junk)[0] == 0;
    } else {
      var f, rest := fields[0], PutFields(fields[1..]) + [0] + junk;
      assert PutFields(fields) + [0] + junk == [f.kind] + (f.data + [0] + rest);
      FieldInFront(f, rest);
      hide Fields;
      FieldsRoundTrip(fields[1..], junk);
    }
  }

  // ------------------------------------------------------------------ messages

  function DecodeMessage(tag: byte, payload: bytes, limit: int, fromClient: bool): Option<Event> {
    if tag == TAG_Q then Some(Event(Request, SimpleQuery, Truncated(CString(payload), limit), []))
    else if tag == TAG_P then
      if NulIndex(payload) < 0 then None
      else Some(Event(Request, Prepare, Truncated(CString(payload[NulIndex(payload) + 1..]), limit), []))
    else if tag == TAG_E && !fromClient then Some(Event(Response, ErrorResponse, [], ErrorText(payload)))
    else None
  }

  function TurnAt(d: bytes, limit: int, fromClient: bool): Turn<Event> {
    if |d| < 5 then Stop
    else
      var msgLen := BE32(d, 1);
      if msgLen < 4 || 1 + msgLen > |d| then Stop
      else Take(1 + msgLen, DecodeMessage(d[0], d[5..1 + msgLen], limit, fromClient))
  }

  function Messages(limit: int, fromClient: bool): Framer<Event> { d => TurnAt(d, limit, fromClient) }

  /** What is left once a client's startup message has been skipped. */
  function AfterStartup(d: bytes, fromClient: bool): bytes {
    if fromClient && |d| >= 8 && BE32(d, 4) == VERSION_3 && 0 < BE32(d, 0) <= |d| then d[BE32(d, 0)..] else d
  }

  lemma MessagesSelfDelimiting(limit: int, fromClient: bool)
    ensures SelfDelimiting(Messages(limit, fromClient))
  {
    var f := Messages(limit, fromClient);
    forall d: bytes, x: bytes | f(d).Take? ensures 0 < f(d).n <= |d| && f(Cut(f, d, x)) == f(d) {
      var n := f(d).n;
      assert (d[..n] + x)[5..n] == d[5..n];
    }
  }

  method ReadMessage(tag: byte, payload: bytes, limit: int, fromClient: bool) returns (ev: Option<Event>)
    ensures ev == DecodeMessage(tag, payload, limit, fromClient)
  {
    if tag == TAG_E && !fromClient {
      var text := ReadErrorText(payload);
      return Some(Event(Response, ErrorResponse, [], text));
    }
    ev := DecodeMessage(tag, payload, limit, fromClient);
  }

  method Parse(data: bytes, limit: int, fromClient: bool) returns (events: seq<Event>)
    ensures events == Run(Messages(limit, fromClient), AfterStartup(data, fromClient)).0
  {
    hide Run, SelfDelimiting, DecodeMessage, BE32;
    events := [];
    var d := data;
    if fromClient && |d| >= 8 {
      if BE32(d, 4) == VERSION_3 {
        var msgLen := BE32(d, 0);
        if msgLen > 0 && msgLen <= |d| { d := d[msgLen..]; }
      }
    }
    ghost var f := Messages(limit, fromClient);
    MessagesSelfDelimiting(limit, fromClient);
    assert [] + Run(f, d).0 == Run(f, d).0;
    while |d| >= 5
      invariant events + Run(f, d).0 == Run(f, AfterStartup(data, fromClient)).0
      decreases |d|
    {
      var msgLen := BE32(d, 1);
      if msgLen < 4 || 1 + msgLen > |d| { break; }
      var ev := ReadMessage(d[0], d[5..1 + msgLen], limit, fromClient);
      LoopStep(f, d, events, 1 + msgLen, ev);
      events := events + OptionSeq(ev);
      d := d[1 + msgLen..];
    }
    LoopEnd(f, d, events);
  }

  datatype Message = Message(tag: byte, body: bytes)

  predicate Legal(m: Message) { |m.body| + 4 < 0x1_0000_0000 }

  function PutMessage(m: Message): bytes
    requires Legal(m)
  {
    [m.tag] + PutBE32(|m.body| + 4) + m.body
  }

  /** Startup: length, version 3.0, parameters. */
  function PutStartup(params: bytes): bytes
    requires |params| + 8 < 0x1_0000_0000
  {
    PutBE32(|params| + 8) + [0, 3, 0, 0] + params
  }

  lemma StartupSkipped(params: bytes, rest: bytes)
    requires |params| + 8 < 0x1_0000_0000
    ensures AfterStartup(PutStartup(params) + rest, true) == rest
  {
    var d := PutStartup(params) + rest;
    assert d[..4] == PutBE32(|params| + 8) && d[4..8] == [0, 3, 0, 0];
    assert d[|params| + 8..] == rest;
  }

  lemma MessageIsFrame(m: Message, limit: int, fromClient: bool)
    requires Legal(m)
    ensures IsFrame(Messages(limit, fromClient), PutMessage(m), DecodeMessage(m.tag, m.body, limit, fromClient))
  {
    var w := PutMessage(m);
    assert w[1..5] == PutBE32(|m.body| + 4) && w[5..5 + |m.body|] == m.body;
    BE32Written(w, 1, |m.body| + 4);
  }

  /** A stream of tagged messages: one event for each that has one, in order, then what follows. */
  lemma MessagesRoundTrip(ms: seq<Message>, tail: bytes, limit: int, fromClient: bool)
    requires forall i :: 0 <= i < |ms| ==> Legal(ms[i])
    ensures var f := Messages(limit, fromClient);
      var wire := Concat(seq(|ms|, i requires 0 <= i < |ms| => PutMessage(ms[i])));
      var decoded := seq(|ms|, i requires 0 <= i < |ms| => DecodeMessage(ms[i].tag, ms[i].body, limit, fromClient));
      Run(f, wire + tail) == (Events(decoded) + Run(f, tail).0, Run(f, tail).1)
  {
    var ws := seq(|ms|, i requires 0 <= i < |ms| => PutMessage(ms[i]));
    var decoded := seq(|ms|, i requires 0 <= i < |ms| => DecodeMessage(ms[i].tag, ms[i].body, limit, fromClient));
    MessagesSelfDelimiting(limit, fromClient);
    forall i | 0 <= i < |ws| ensures IsFrame(Messages(limit, fromClient), ws[i], decoded[i]) {
      MessageIsFrame(ms[i], limit, fromClient);
    }
    FramesRead(Messages(limit, fromClient), ws, decoded, tail);
  }

  /** The SQL of a simple query, and of a Parse message behind its statement name. */
  lemma QueryTextRecovered(name: bytes, sql: bytes, more: bytes, limit: int, fromClient: bool)
    requires 0 !in name && 0 !in sql
    ensures DecodeMessage(81, sql + [0] + more, limit, fromClient)
         == Some(Event(Request, SimpleQuery, Truncated(sql, limit), []))
    ensures DecodeMessage(80, name + [0] + (sql + [0] + more), limit, fromClient)
         == Some(Event(Request, Prepare, Truncated(sql, limit), []))
  {
    NulTerminated(sql, more);
    NulTerminated(name, sql + [0] + more);
    assert (sql + [0] + more)[..|sql|] == sql;
    assert (name + [0] + (sql + [0] + more))[|name| + 1..] == sql + [0] + more;
  }

  /** Without a terminator the text reaches to the end, and a Parse message without one gives nothing. */
  lemma UnterminatedText(name: bytes, sql: bytes, limit: int, fromClient: bool)
    requires 0 !in name && 0 !in sql
    ensures DecodeMessage(81, sql, limit, fromClient) == Some(Event(Request, SimpleQuery, Truncated(sql, limit), []))
    ensures DecodeMessage(80, name + [0] + sql, limit, fromClient)
         == Some(Event(Request, Prepare, Truncated(sql, limit), []))
    ensures DecodeMessage(80, name, limit, fromClient) == None
  {
    NulTerminated(name, sql);
    assert (name + [0] + sql)[|name| + 1..] == sql;
  }

  lemma CutField(cut: bytes)
    requires 0 !in cut
    ensures Fields(cut) == []
  {
    if cut != [] { assert 0 !in cut[1..]; }
  }

  /** A field that is cut off ends the list. */
  lemma {:induction false} FieldsCutOff(fields: seq<Field>, cut: bytes)
    requires forall i :: 0 <= i < |fields| ==> fields[i].kind != 0 && 0 !in fields[i].data
    requires 0 !in cut
    ensures Fields(PutFields(fields) + cut) == fields
  {
    hide Fields;
    if fields == [] {
      assert PutFields(fields) + cut == cut;
      CutField(cut);
    } else {
      var f, rest := fields[0], PutFields(fields[1..]) + cut;
      assert PutFields(fields) + cut == [f.kind] + (f.data + [0] + rest);
      FieldInFront(f, rest);
      FieldsCutOff(fields[1..], cut);
      assert fields == [f] + fields[1..];
    }
  }

  /**
   The text of an error: severity, a space, the code, a colon and a space, the message, each from the last
   field of its kind; only a server's message gives one, and no other tag gives anything.
   */
  lemma ErrorTextLayout(before: seq<Field>, severity: bytes, code: bytes, message: bytes, junk: bytes, limit: int)
    requires forall i :: 0 <= i < |before| ==> before[i].kind != 0 && 0 !in before[i].data
    requires 0 !in severity && 0 !in code && 0 !in message
    ensures var payload := PutFields(before + [Entry(83, severity), Entry(67, code), Entry(77, message)]) + [0] + junk;
      && DecodeMessage(69, payload, limit, false)
         == Some(Event(Response, ErrorResponse, [], severity + [32] + code + [58, 32] + message))
      && DecodeMessage(69, payload, limit, true) == None
  {
    hide LastData, Fields, PutFields;
    var c := before + [Entry(83, severity), Entry(67, code), Entry(77, message)];
    assert forall i :: 0 <= i < |c| ==> c[i].kind != 0 && 0 !in c[i].data;
    FieldsRoundTrip(c, junk);
    ThreeFields(before, severity, code, message);
  }

  lemma ThreeFields(before: seq<Field>, severity: bytes, code: bytes, message: bytes)
    ensures var c := before + [Entry(83, severity), Entry(67, code), Entry(77, message)];
      LastData(c, 83) == severity && LastData(c, 67) == code && LastData(c, 77) == message
  {
    hide LastData;
    var a := before + [Entry(83, severity)];
    var b := a + [Entry(67, code)];
    assert before + [Entry(83, severity), Entry(67, code), Entry(77, message)] == b + [Entry(77, message)];
    LastDataSnoc(before, Entry(83, severity));
    LastDataSnoc(a, Entry(67, code));
    LastDataSnoc(b, Entry(77, message));
  }

  lemma OtherTagsSilent(tag: byte, payload: bytes, limit: int, fromClient: bool)
    requires tag !in {81, 80, 69}
    ensures DecodeMessage(tag, payload, limit, fromClient) == None
  {}

  /** A server's data is left whole. */
  lemma ServerDataWhole(d: bytes)
    ensures AfterStartup(d, false) == d
  {}

  /**
   A client's data loses its first bytes exactly when bytes 4 to 7 are the version 3.0 and the four bytes
   before give a length that is not 0 and not beyond the data; then it loses that many.
   */
  lemma StartupExactly(d: bytes)
    ensures AfterStartup(d, true) != d <==> |d| >= 8 && d[4..8] == [0, 3, 0, 0] && 0 < BE32(d, 0) <= |d|
    ensures AfterStartup(d, true) != d ==> AfterStartup(d, true) == d[BE32(d, 0)..]
  {
    if |d| >= 8 { VersionBytes(d); }
  }

  lemma VersionBytes(d: bytes)
    requires |d| >= 8
    ensures BE32(d, 4) == VERSION_3 <==> d[4..8] == [0, 3, 0, 0]
  {
    var v := d[4..8];
    assert v == [d[4], d[5], d[6], d[7]];
  }

  /** One message in a stream. */
  lemma MessageRead(m: Message, tail: bytes, limit: int, fromClient: bool)
    requires Legal(m)
    ensures var f := Messages(limit, fromClient);
      Run(f, PutMessage(m) + tail)
      == (OptionSeq(DecodeMessage(m.tag, m.body, limit, fromClient)) + Run(f, tail).0, Run(f, tail).1)
  {
    hide Run, SelfDelimiting, DecodeMessage, PutMessage;
    MessagesSelfDelimiting(limit, fromClient);
    MessageIsFrame(m, limit, fromClient);
    FrameRead(Messages(limit, fromClient), PutMessage(m), DecodeMessage(m.tag, m.body, limit, fromClient), tail);
  }

  /** A simple query in a stream gives its event, then come those of what follows. */
  lemma QueryEvent(sql: bytes, more: bytes, tail: bytes, limit: int, fromClient: bool)
    requires 0 !in sql && 5 + |sql| + |more| < 0x1_0000_0000
    ensures var f := Messages(limit, fromClient);
      Run(f, PutMessage(Message(81, sql + [0] + more)) + tail)
      == ([Event(Request, SimpleQuery, Truncated(sql, limit), [])] + Run(f, tail).0, Run(f, tail).1)
  {
    hide Run, PutMessage, DecodeMessage;
    MessageRead(Message(81, sql + [0] + more), tail, limit, fromClient);
    QueryTextRecovered([], sql, more, limit, fromClient);
  }

  lemma TakenMessage(d: bytes, limit: int, fromClient: bool) returns (m: Message)
    requires Messages(limit, fromClient)(d).Take?
    ensures Legal(m) && PutMessage(m) <= d
  {
    hide DecodeMessage, BE32, PutBE32;
    var n := BE32(d, 1);
    m := Message(d[0], d[5..1 + n]);
    BE32Back(d, 1);
    assert PutMessage(m) == [d[0]] + d[1..5] + d[5..1 + n];
    assert [d[0]] + d[1..5] + d[5..1 + n] == d[..1 + n];
  }

  /** The loop takes a message exactly when an encoded one is at the front. */
  lemma TakesExactly(d: bytes, limit: int, fromClient: bool)
    ensures Messages(limit, fromClient)(d).Take? <==> exists m :: Legal(m) && PutMessage(m) <= d
  {
    if Messages(limit, fromClient)(d).Take? { var m := TakenMessage(d, limit, fromClient); }
    hide DecodeMessage, TurnAt, PutMessage, SelfDelimiting;
    MessagesSelfDelimiting(limit, fromClient);
    forall m: Message | Legal(m) && PutMessage(m) <= d ensures Messages(limit, fromClient)(d).Take? {
      MessageIsFrame(m, limit, fromClient);
      FrameInFront(Messages(limit, fromClient), PutMessage(m), DecodeMessage(m.tag, m.body, limit, fromClient), d);
    }
  }
}
