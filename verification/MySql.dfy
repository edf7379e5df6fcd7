/** The MySQL packet loop and packet decoder: internal/protocol/mysql/parser.go. */
module MySql {
  import opened Common
  import opened Framing

  datatype Operation = ComQuery | ComStmtPrepare | Ok | Err
  datatype Event = Event(dir: Dir, operation: Operation, statement: bytes, errorCode: nat, errorMsg: bytes)

  const COM_QUERY: byte := 0x03
  const COM_STMT_PREPARE: byte := 0x16
  const OK_MARKER: byte := 0x00
  const ERR_MARKER: byte := 0xff
  const HASH: byte := 35

  function DecodeCommand(payload: bytes, limit: int): Option<Event>
    requires payload != []
  {
    if payload[0] == COM_QUERY then Some(Event(Request, ComQuery, Truncated(payload[1..], limit), 0, []))
    else if payload[0] == COM_STMT_PREPARE then
      Some(Event(Request, ComStmtPrepare, Truncated(payload[1..], limit), 0, []))
    else None
  }

  function DecodeResponse(payload: bytes): Option<Event>
    requires payload != []
  {
    if payload[0] == OK_MARKER then Some(Event(Response, Ok, [], 0, []))
    else if payload[0] == ERR_MARKER && |payload| >= 3 then
      var rest := payload[3..];
      Some(Event(Response, Err, [], LE16(payload, 1), if |rest| > 6 && rest[0] == HASH then rest[6..] else rest))
    else None
  }

  function DecodePacket(payload: bytes, limit: int, fromClient: bool): Option<Event> {
    if payload == [] then None
    else if fromClient then DecodeCommand(payload, limit)
    else DecodeResponse(payload)
  }

  function TurnAt(d: bytes, limit: int, fromClient: bool): Turn<Event> {
    if |d| < 4 then Stop
    else
      var payloadLen := LE24(d, 0);
      if 4 + payloadLen > |d| || payloadLen == 0 then Stop
      else Take(4 + payloadLen, DecodePacket(d[4..4 + payloadLen], limit, fromClient))
  }

  function Packets(limit: int, fromClient: bool): Framer<Event> { d => TurnAt(d, limit, fromClient) }

  lemma PacketsSelfDelimiting(limit: int, fromClient: bool)
    ensures SelfDelimiting(Packets(limit, fromClient))
  {
    var f := Packets(limit, fromClient);
    forall d: bytes, x: bytes | f(d).Take? ensures 0 < f(d).n <= |d| && f(Cut(f, d, x)) == f(d) {
      var n := f(d).n;
      assert (d[..n] + x)[4..n] == d[4..n];
    }
  }

  method Parse(data: bytes, limit: int, fromClient: bool) returns (events: seq<Event>)
    ensures events == Run(Packets(limit, fromClient), data).0
  {
    hide Run, SelfDelimiting, DecodePacket;
    events := [];
    var d := data;
    ghost var f := Packets(limit, fromClient);
    assert [] + Run(f, d).0 == Run(f, d).0;
    PacketsSelfDelimiting(limit, fromClient);
    while |d| >= 4
      invariant events + Run(f, d).0 == Run(f, data).0
      decreases |d|
    {
      var payloadLen := LE24(d, 0);
      var packetLen := 4 + payloadLen;
      if packetLen > |d| || payloadLen == 0 { break; }
      var ev := DecodePacket(d[4..packetLen], limit, fromClient);
      LoopStep(f, d, events, packetLen, ev);
      events := events + OptionSeq(ev);
      d := d[packetLen..];
    }
    LoopEnd(f, d, events);
  }

  datatype Packet = Packet(seqId: byte, payload: bytes)

  predicate Legal(p: Packet) { 0 < |p.payload| < 0x100_0000 }

  function PutPacket(p: Packet): bytes
    requires Legal(p)
  {
    PutLE24(|p.payload|) + [p.seqId] + p.payload
  }

  lemma PacketIsFrame(p: Packet, limit: int, fromClient: bool)
    requires Legal(p)
    ensures IsFrame(Packets(limit, fromClient), PutPacket(p), DecodePacket(p.payload, limit, fromClient))
  {
    var w := PutPacket(p);
    assert w[0..3] == PutLE24(|p.payload|) && w[4..4 + |p.payload|] == p.payload;
    LE24Written(w, 0, |p.payload|);
  }

  /** A stream of non-empty packets: one event for each that has one, in order, then what follows. */
  lemma PacketsRoundTrip(ps: seq<Packet>, tail: bytes, limit: int, fromClient: bool)
    requires forall i :: 0 <= i < |ps| ==> Legal(ps[i])
    ensures var f := Packets(limit, fromClient);
      var wire := Concat(seq(|ps|, i requires 0 <= i < |ps| => PutPacket(ps[i])));
      var decoded := seq(|ps|, i requires 0 <= i < |ps| => DecodePacket(ps[i].payload, limit, fromClient));
      Run(f, wire + tail) == (Events(decoded) + Run(f, tail).0, Run(f, tail).1)
  {
    var ws := seq(|ps|, i requires 0 <= i < |ps| => PutPacket(ps[i]));
    var decoded := seq(|ps|, i requires 0 <= i < |ps| => DecodePacket(ps[i].payload, limit, fromClient));
    PacketsSelfDelimiting(limit, fromClient);
    forall i | 0 <= i < |ws| ensures IsFrame(Packets(limit, fromClient), ws[i], decoded[i]) {
      PacketIsFrame(ps[i], limit, fromClient);
    }
    FramesRead(Packets(limit, fromClient), ws, decoded, tail);
  }

  /** An ERR payload with the SQLSTATE marker of protocol 4.1. */
  function PutErr(code: nat, state: bytes, message: bytes): bytes
    requires code < 0x1_0000 && |state| == 5
  {
    [255] + PutLE16(code) + [35] + state + message
  }

  /**
   The error code is always recovered; the message exactly when it is not empty, because the test for
   the marker asks for a byte beyond it and takes `#` and the state for the message otherwise.
   */
  lemma ErrRoundTrip(code: nat, state: bytes, message: bytes)
    requires code < 0x1_0000 && |state| == 5
    ensures var ev := DecodeResponse(PutErr(code, state, message));
      && ev.Some? && ev.value.operation == Err && ev.value.errorCode == code
      && (ev.value.errorMsg == message <==> message != [])
  {
    var p := PutErr(code, state, message);
    assert p[1..3] == PutLE16(code);
    assert p[3..] == [HASH] + state + message;
    assert p[3..][6..] == message;
  }

  /** Without the marker, or with nothing behind it, the whole rest is the message. */
  lemma PlainErr(code: nat, rest: bytes)
    requires code < 0x1_0000 && (rest == [] || rest[0] != 35 || |rest| <= 6)
    ensures DecodeResponse([255] + PutLE16(code) + rest) == Some(Event(Response, Err, [], code, rest))
  {
    var p := [255] + PutLE16(code) + rest;
    assert p[1..3] == PutLE16(code) && p[3..] == rest;
  }

  /** One packet in a stream. */
  lemma PacketRead(p: Packet, tail: bytes, limit: int, fromClient: bool)
    requires Legal(p)
    ensures var f := Packets(limit, fromClient);
      Run(f, PutPacket(p) + tail)
      == (OptionSeq(DecodePacket(p.payload, limit, fromClient)) + Run(f, tail).0, Run(f, tail).1)
  {
    hide Run, SelfDelimiting, DecodePacket, PutPacket;
    PacketsSelfDelimiting(limit, fromClient);
    PacketIsFrame(p, limit, fromClient);
    FrameRead(Packets(limit, fromClient), PutPacket(p), DecodePacket(p.payload, limit, fromClient), tail);
  }

  /**
   What a client's packet gives: COM_QUERY and COM_STMT_PREPARE one request event with the text behind the
   command byte, cut at the limit; any other command nothing.
   */
  lemma QueryTextRecovered(seqId: byte, command: byte, text: bytes, tail: bytes, limit: int)
    requires 1 + |text| < 0x100_0000
    ensures var f := Packets(limit, true);
      var (events, rest) := Run(f, PutPacket(Packet(seqId, [command] + text)) + tail);
      && rest == Run(f, tail).1
      && events == (if command == 0x03 then [Event(Request, ComQuery, Truncated(text, limit), 0, [])]
                    else if command == 0x16 then [Event(Request, ComStmtPrepare, Truncated(text, limit), 0, [])]
                    else []) + Run(f, tail).0
  {
    hide Run, PutPacket;
    PacketRead(Packet(seqId, [command] + text), tail, limit, true);
    assert ([command] + text)[1..] == text;
  }

  /** What a server's packet gives, apart from ERR: OK one event, any other first byte nothing. */
  lemma ServerPacketRead(seqId: byte, first: byte, more: bytes, tail: bytes, limit: int)
    requires 1 + |more| < 0x100_0000 && (first != 0xff || |more| < 2)
    ensures var f := Packets(limit, false);
      var (events, rest) := Run(f, PutPacket(Packet(seqId, [first] + more)) + tail);
      && rest == Run(f, tail).1
      && events == (if first == 0 then [Event(Response, Ok, [], 0, [])] else []) + Run(f, tail).0
  {
    hide Run, PutPacket;
    PacketRead(Packet(seqId, [first] + more), tail, limit, false);
  }

  /** And ERR, with the marker of protocol 4.1 and a message. */
  lemma ServerErrRead(seqId: byte, code: nat, state: bytes, message: bytes, tail: bytes, limit: int)
    requires code < 0x1_0000 && |state| == 5 && message != [] && 9 + |message| < 0x100_0000
    ensures var f := Packets(limit, false);
      Run(f, PutPacket(Packet(seqId, PutErr(code, state, message))) + tail)
      == ([Event(Response, Err, [], code, message)] + Run(f, tail).0, Run(f, tail).1)
  {
    hide Run, PutPacket;
    var p := PutErr(code, state, message);
    PacketRead(Packet(seqId, p), tail, limit, false);
    assert p[1..3] == PutLE16(code) && p[3..] == [35] + state + message && p[3..][6..] == message;
  }

  lemma TakenPacket(d: bytes, limit: int, fromClient: bool) returns (p: Packet)
    requires Packets(limit, fromClient)(d).Take?
    ensures Legal(p) && PutPacket(p) <= d
  {
    hide DecodePacket, LE24, PutLE24;
    p := Packet(d[3], d[4..4 + LE24(d, 0)]);
    LE24Back(d, 0);
    assert PutPacket(p) == d[..4 + LE24(d, 0)];
  }

  /** The loop takes a packet exactly when an encoded non-empty one is at the front. */
  lemma TakesExactly(d: bytes, limit: int, fromClient: bool)
    ensures Packets(limit, fromClient)(d).Take? <==> exists p :: Legal(p) && PutPacket(p) <= d
  {
    if Packets(limit, fromClient)(d).Take? { var p := TakenPacket(d, limit, fromClient); }
    hide DecodePacket, TurnAt, PutPacket, SelfDelimiting;
    PacketsSelfDelimiting(limit, fromClient);
    forall p: Packet | Legal(p) && PutPacket(p) <= d ensures Packets(limit, fromClient)(d).Take? {
      PacketIsFrame(p, limit, fromClient);
      FrameInFront(Packets(limit, fromClient), PutPacket(p), DecodePacket(p.payload, limit, fromClient), d);
    }
  }
}
