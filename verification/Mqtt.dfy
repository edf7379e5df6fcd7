/** The MQTT packet loop, the remaining-length codec and the field extractors: internal/protocol/mqtt/parser.go. */
module Mqtt {
  import opened Common
  import opened Framing

  datatype Event = Event(dir: Dir, packetType: nat, clientID: bytes, topic: bytes)

  const CONNECT: nat := 1
  const PUBLISH: nat := 3

  // ------------------------------------------------------------------ remaining length

  /** 7 bits a byte, least significant first, at most `room` bytes; value and bytes used. */
  function VarInt(d: bytes, room: nat): Option<(nat, nat)> {
    if room == 0 || d == [] then None
    else if d[0] < 128 then Some((d[0], 1))
    else match VarInt(d[1..], room - 1)
      case None => None
      case Some((value, used)) => Some((d[0] % 128 + 128 * value, used + 1))
  }

  function Power128(n: nat): nat { if n == 0 then 1 else 128 * Power128(n - 1) }

  /** The result of decodeRemainingLength, whose error is (0, -1). */
  function RemainingLength(d: bytes): (int, int) {
    match VarInt(d, 4)
    case None => (0, -1)
    case Some((value, used)) => (value as int, used as int)
  }

  lemma NextDigit(multiplier: nat, digit: nat, higher: nat)
    ensures multiplier * (digit + 128 * higher) == digit * multiplier + (multiplier * 128) * higher
  {}

  /** decodeRemainingLength: the loop with its running value and multiplier. */
  method DecodeRemainingLength(d: bytes) returns (value: int, used: int)
    ensures (value, used) == RemainingLength(d)
  {
    var multiplier: nat := 1;
    value := 0;
    var i: nat := 0;
    while i < 4 && i < |d|
      invariant i <= 4 && i <= |d|
      invariant match VarInt(d[i..], 4 - i)
        case Some((v, n)) => VarInt(d, 4) == Some((value + multiplier * v, i + n))
        case None => VarInt(d, 4) == None
    {
      assert d[i..][0] == d[i] && d[i..][1..] == d[i + 1..];
      ghost var rest := VarInt(d[i + 1..], 4 - i - 1);
      var digit: nat := d[i] % 128;
      if rest.Some? { NextDigit(multiplier, digit, rest.value.0); }
      value := value + digit * multiplier;
      if d[i] < 128 { return value, i + 1; }
      multiplier := multiplier * 128;
      i := i + 1;
    }
    return 0, -1;
  }

  function PutVarInt(v: nat): bytes {
    if v < 128 then [v] else [128 + v % 128] + PutVarInt(v / 128)
  }

  /** Every length a given room can hold is read back, whatever follows, from as many bytes as it takes. */
  lemma {:induction false} VarIntRoundTrip(v: nat, room: nat, tail: bytes)
    requires 0 < room && v < Power128(room)
    ensures VarInt(PutVarInt(v) + tail, room) == Some((v, |PutVarInt(v)|))
  {
    var d := PutVarInt(v) + tail;
    if v >= 128 {
      assert room > 1 && v / 128 < Power128(room - 1) by { assert Power128(1) == 128; }
      assert d[1..] == PutVarInt(v / 128) + tail;
      VarIntRoundTrip(v / 128, room - 1, tail);
    }
  }

  /** A value read from n bytes is below 128 to the n, and those bytes alone determine the reading. */
  lemma {:induction false} VarIntBounds(d: bytes, room: nat, x: bytes)
    requires VarInt(d, room).Some?
    ensures var (value, used) := VarInt(d, room).value;
      && 0 < used <= room && used <= |d| && value < Power128(used)
      && VarInt(d[..used] + x, room) == VarInt(d, room)
  {
    var (value, used) := VarInt(d, room).value;
    if d[0] >= 128 {
      VarIntBounds(d[1..], room - 1, x);
      assert (d[..used] + x)[1..] == d[1..][..used - 1] + x;
    }
  }

  /** The documented range, 0 to 268435455, and the bound on what four bytes can say. */
  lemma RemainingLengthRange(v: nat, tail: bytes, d: bytes)
    ensures v <= 268435455 ==> RemainingLength(PutVarInt(v) + tail) == (v, |PutVarInt(v)|)
    ensures RemainingLength(d).1 > 0 ==> 0 <= RemainingLength(d).0 <= 268435455
  {
    assert Power128(1) == 128;
    assert Power128(2) == 16384;
    assert Power128(3) == 2097152;
    assert Power128(4) == 268435456;
    if v <= 268435455 { VarIntRoundTrip(v, 4, tail); }
    if VarInt(d, 4).Some? { VarIntBounds(d, 4, []); }
  }

  // ------------------------------------------------------------------ fields

  function ClientID(payload: bytes): bytes {
    if |payload| < 10 then []
    else
      var offset := 2 + BE16(payload, 0) + 4;
      if offset + 2 > |payload| then []
      else
        var idLen := BE16(payload, offset);
        if offset + 2 + idLen > |payload| then [] else payload[offset + 2..offset + 2 + idLen]
  }

  function Topic(payload: bytes): bytes {
    if |payload| < 2 || 2 + BE16(payload, 0) > |payload| then [] else payload[2..2 + BE16(payload, 0)]
  }

  function DecodePacket(header: byte, payload: bytes, fromClient: bool): Event {
    Event(if fromClient then Request else Response, header / 16,
          if header / 16 == CONNECT then ClientID(payload) else [],
          if header / 16 == PUBLISH then Topic(payload) else [])
  }

  /** CONNECT of MQTT 3.1.1 (section 3.1): protocol name, level, flags, keep-alive, client identifier. */
  function PutConnect(name: bytes, level: byte, flags: byte, keepAlive: nat, id: bytes, more: bytes): bytes
    requires |name| < 0x1_0000 && |id| < 0x1_0000 && keepAlive < 0x1_0000
  {
    PutBE16(|name|) + name + [level, flags] + PutBE16(keepAlive) + PutBE16(|id|) + id + more
  }

  /** The identifier is recovered from every CONNECT of at least ten bytes; a shorter one yields nothing. */
  lemma ConnectRecovered(name: bytes, level: byte, flags: byte, keepAlive: nat, id: bytes, more: bytes)
    requires |name| < 0x1_0000 && |id| < 0x1_0000 && keepAlive < 0x1_0000
    ensures var p := PutConnect(name, level, flags, keepAlive, id, more);
      ClientID(p) == if |name| + |id| + |more| >= 2 then id else []
  {
    var p := PutConnect(name, level, flags, keepAlive, id, more);
    var k := 2 + |name| + 4;
    assert p[..2] == PutBE16(|name|) && p[k..k + 2] == PutBE16(|id|) && p[k + 2..k + 2 + |id|] == id;
  }

  lemma PublishRecovered(topic: bytes, more: bytes)
    requires |topic| < 0x1_0000
    ensures Topic(PutBE16(|topic|) + topic + more) == topic
  {
    var p := PutBE16(|topic|) + topic + more;
    assert p[..2] == PutBE16(|topic|) && p[2..2 + |topic|] == topic;
  }

  // ------------------------------------------------------------------ packets

  function TurnAt(d: bytes, fromClient: bool): Turn<Event> {
    if |d| < 2 || !(1 <= d[0] / 16 <= 14) then Stop
    else match VarInt(d[1..], 4)
      case None => Stop
      case Some((remLen, lenBytes)) =>
        var header := 1 + lenBytes;
        if header + remLen > |d| then Stop
        else Take(header + remLen, Some(DecodePacket(d[0], d[header..header + remLen], fromClient)))
  }

  function Packets(fromClient: bool): Framer<Event> { d => TurnAt(d, fromClient) }

  lemma PacketsSelfDelimiting(fromClient: bool)
    ensures SelfDelimiting(Packets(fromClient))
  {
    var f := Packets(fromClient);
    forall d: bytes, x: bytes | f(d).Take? ensures 0 < f(d).n <= |d| && f(Cut(f, d, x)) == f(d) {
      var n := f(d).n;
      var (remLen, lenBytes) := VarInt(d[1..], 4).value;
      VarIntBounds(d[1..], 4, d[1..n][lenBytes..] + x);
      assert (d[..n] + x)[1..] == d[1..][..lenBytes] + (d[1..n][lenBytes..] + x);
      assert (d[..n] + x)[1 + lenBytes..n] == d[1 + lenBytes..n];
    }
  }

  method Parse(data: bytes, fromClient: bool) returns (events: seq<Event>)
    ensures events == Run(Packets(fromClient), data).0
  {
    hide Run, SelfDelimiting, DecodePacket;
    events := [];
    var d := data;
    ghost var f := Packets(fromClient);
    assert [] + Run(f, d).0 == Run(f, d).0;
    PacketsSelfDelimiting(fromClient);
    while |d| >= 2
      invariant events + Run(f, d).0 == Run(f, data).0
      decreases |d|
    {
      if !(1 <= d[0] / 16 <= 14) { break; }
      var remLen, lenBytes := DecodeRemainingLength(d[1..]);
      if lenBytes <= 0 { break; }
      var total := 1 + lenBytes + remLen;
      if total > |d| { break; }
      var ev := Some(DecodePacket(d[0], d[1 + lenBytes..total], fromClient));
      LoopStep(f, d, events, total, ev);
      events := events + OptionSeq(ev);
      d := d[total..];
    }
    LoopEnd(f, d, events);
  }

  datatype Packet = Packet(header: byte, payload: bytes)

  predicate Legal(p: Packet) { 1 <= p.header / 16 <= 14 && |p.payload| <= 268435455 }

  function PutPacket(p: Packet): bytes { [p.header] + PutVarInt(|p.payload|) + p.payload }

  lemma PacketIsFrame(p: Packet, fromClient: bool)
    requires Legal(p)
    ensures IsFrame(Packets(fromClient), PutPacket(p), Some(DecodePacket(p.header, p.payload, fromClient)))
  {
    hide DecodePacket, VarInt, PutVarInt;
    var w := PutPacket(p);
    var len := PutVarInt(|p.payload|);
    RemainingLengthRange(|p.payload|, p.payload, []);
    VarIntBounds(len + p.payload, 4, []);
    assert w[0] == p.header && w[1..] == len + p.payload;
    assert w[1 + |len|..1 + |len| + |p.payload|] == p.payload;
  }

  /** A stream of packets: one event for each, in order, then what follows. */
  lemma PacketsRoundTrip(ps: seq<Packet>, tail: bytes, fromClient: bool)
    requires forall i :: 0 <= i < |ps| ==> Legal(ps[i])
    ensures var f := Packets(fromClient);
      var wire := Concat(seq(|ps|, i requires 0 <= i < |ps| => PutPacket(ps[i])));
      var decoded := seq(|ps|, i requires 0 <= i < |ps| => Some(DecodePacket(ps[i].header, ps[i].payload, fromClient)));
      Run(f, wire + tail) == (Events(decoded) + Run(f, tail).0, Run(f, tail).1)
  {
    var ws := seq(|ps|, i requires 0 <= i < |ps| => PutPacket(ps[i]));
    var decoded := seq(|ps|, i requires 0 <= i < |ps| => Some(DecodePacket(ps[i].header, ps[i].payload, fromClient)));
    PacketsSelfDelimiting(fromClient);
    forall i | 0 <= i < |ws| ensures IsFrame(Packets(fromClient), ws[i], decoded[i]) {
      PacketIsFrame(ps[i], fromClient);
    }
    FramesRead(Packets(fromClient), ws, decoded, tail);
  }

  /** One packet in a stream. */
  lemma PacketRead(p: Packet, tail: bytes, fromClient: bool)
    requires Legal(p)
    ensures var f := Packets(fromClient);
      Run(f, PutPacket(p) + tail)
      == ([DecodePacket(p.header, p.payload, fromClient)] + Run(f, tail).0, Run(f, tail).1)
  {
    hide Run, SelfDelimiting, DecodePacket, PutPacket;
    PacketsSelfDelimiting(fromClient);
    PacketIsFrame(p, fromClient);
    FrameRead(Packets(fromClient), PutPacket(p), Some(DecodePacket(p.header, p.payload, fromClient)), tail);
  }

  /** The event of a CONNECT: its direction, type 1, and the client identifier; no topic. */
  lemma ConnectEvent(
    flags: byte, name: bytes, level: byte, bits: byte, keepAlive: nat, id: bytes, more: bytes, tail: bytes,
    fromClient: bool)
    requires |name| < 0x1_0000 && |id| < 0x1_0000 && keepAlive < 0x1_0000 && 16 <= flags < 32
    requires |name| + |id| + |more| >= 2 && 8 + |name| + |id| + |more| <= 268435455
    ensures var f := Packets(fromClient);
      Run(f, PutPacket(Packet(flags, PutConnect(name, level, bits, keepAlive, id, more))) + tail)
      == ([Event(if fromClient then Request else Response, 1, id, [])] + Run(f, tail).0, Run(f, tail).1)
  {
    hide Run, PutPacket, PutConnect, ClientID;
    ConnectLength(name, level, bits, keepAlive, id, more);
    ConnectRecovered(name, level, bits, keepAlive, id, more);
    PacketRead(Packet(flags, PutConnect(name, level, bits, keepAlive, id, more)), tail, fromClient);
  }

  lemma ConnectLength(name: bytes, level: byte, flags: byte, keepAlive: nat, id: bytes, more: bytes)
    requires |name| < 0x1_0000 && |id| < 0x1_0000 && keepAlive < 0x1_0000
    ensures |PutConnect(name, level, flags, keepAlive, id, more)| == 8 + |name| + |id| + |more|
  {}

  /** The event of a PUBLISH: its direction, type 3, and the topic; no identifier. */
  lemma PublishEvent(flags: byte, topic: bytes, more: bytes, tail: bytes, fromClient: bool)
    requires |topic| < 0x1_0000 && 48 <= flags < 64 && 2 + |topic| + |more| <= 268435455
    ensures var f := Packets(fromClient);
      Run(f, PutPacket(Packet(flags, PutBE16(|topic|) + topic + more)) + tail)
      == ([Event(if fromClient then Request else Response, 3, [], topic)] + Run(f, tail).0, Run(f, tail).1)
  {
    hide Run, PutPacket, Topic;
    PublishRecovered(topic, more);
    PacketRead(Packet(flags, PutBE16(|topic|) + topic + more), tail, fromClient);
  }

  /** Any other packet gives an event of its type with neither. */
  lemma OtherEvent(p: Packet, tail: bytes, fromClient: bool)
    requires Legal(p) && p.header / 16 != 1 && p.header / 16 != 3
    ensures var f := Packets(fromClient);
      Run(f, PutPacket(p) + tail)
      == ([Event(if fromClient then Request else Response, p.header / 16, [], [])] + Run(f, tail).0, Run(f, tail).1)
  {
    hide Run, PutPacket;
    PacketRead(p, tail, fromClient);
  }

  /** A publish cut in its topic, or a topic length without its bytes, gives the empty topic. */
  lemma TopicCutOff(n: nat, cut: bytes)
    requires n < 0x1_0000 && |cut| < n
    ensures Topic(PutBE16(n) + cut) == [] && Topic([]) == [] && forall b: byte :: Topic([b]) == []
  {
    var p := PutBE16(n) + cut;
    assert p[..2] == PutBE16(n);
  }

  // ------------------------------------------------------------------ exactly which packets are taken

  /** One to four bytes, 7 bits each, least significant first, all but the last with the top bit set. */
  predicate LengthBytes(g: bytes) {
    && 1 <= |g| <= 4 && g[|g| - 1] < 128
    && forall i :: 0 <= i < |g| - 1 ==> g[i] >= 128
  }

  function LengthValue(g: bytes): nat {
    if g == [] then 0 else g[0] % 128 + 128 * LengthValue(g[1..])
  }

  lemma {:induction false} LengthRead(g: bytes, rest: bytes, room: nat)
    requires 1 <= |g| <= room && g[|g| - 1] < 128 && forall i :: 0 <= i < |g| - 1 ==> g[i] >= 128
    ensures VarInt(g + rest, room) == Some((LengthValue(g), |g|))
  {
    var d := g + rest;
    if |g| == 1 {
      assert g[1..] == [];
    } else {
      assert d[1..] == g[1..] + rest;
      LengthRead(g[1..], rest, room - 1);
    }
  }

  lemma {:induction false} LengthBytesOf(d: bytes, room: nat)
    requires VarInt(d, room).Some?
    ensures var (value, used) := VarInt(d, room).value;
      && 1 <= used <= room && used <= |d| && value == LengthValue(d[..used])
      && d[used - 1] < 128 && forall i :: 0 <= i < used - 1 ==> d[i] >= 128
  {
    var (value, used) := VarInt(d, room).value;
    if d[0] >= 128 {
      LengthBytesOf(d[1..], room - 1);
      assert d[..used][1..] == d[1..][..used - 1];
      forall i | 0 < i < used - 1 ensures d[i] >= 128 { assert d[1..][i - 1] == d[i]; }
    } else {
      assert d[..1][1..] == [];
    }
  }

  lemma TakenPacket(d: bytes, fromClient: bool) returns (header: byte, g: bytes, payload: bytes)
    requires Packets(fromClient)(d).Take?
    ensures 16 <= header < 240 && LengthBytes(g) && |payload| == LengthValue(g) && [header] + g + payload <= d
  {
    hide DecodePacket, LengthValue, VarInt;
    LengthBytesOf(d[1..], 4);
    var (n, used) := VarInt(d[1..], 4).value;
    header, g, payload := d[0], d[1..][..used], d[1 + used..1 + used + n];
    assert d[1..][..used] == d[1..1 + used];
    assert [header] + g + payload == d[..1 + used + n];
  }

  lemma PacketTaken(d: bytes, header: byte, g: bytes, payload: bytes, fromClient: bool)
    requires 16 <= header < 240 && LengthBytes(g) && |payload| == LengthValue(g) && [header] + g + payload <= d
    ensures Packets(fromClient)(d).Take?
  {
    hide DecodePacket, LengthValue, VarInt;
    var w := [header] + g + payload;
    var rest := d[1 + |g|..];
    assert d[..|w|] == w && d[0] == header;
    assert d[1..] == g + rest;
    LengthRead(g, rest, 4);
  }

  /** The loop takes a packet exactly when type, length and as many bytes as that says are at the front. */
  lemma TakesExactly(d: bytes, fromClient: bool)
    ensures Packets(fromClient)(d).Take? <==>
      exists header: byte, g: bytes, payload: bytes ::
        16 <= header < 240 && LengthBytes(g) && |payload| == LengthValue(g) && [header] + g + payload <= d
  {
    hide DecodePacket, LengthValue, LengthBytes, TurnAt;
    if Packets(fromClient)(d).Take? { var header, g, payload := TakenPacket(d, fromClient); }
    forall header: byte, g: bytes, payload: bytes |
      16 <= header < 240 && LengthBytes(g) && |payload| == LengthValue(g) && [header] + g + payload <= d
      ensures Packets(fromClient)(d).Take?
    {
      PacketTaken(d, header, g, payload, fromClient);
    }
  }

  /** A CONNECT cut off in its identifier, or before it, gives none. */
  lemma ClientIDCutOff(name: bytes, level: byte, flags: byte, keepAlive: nat, n: nat, cut: bytes)
    requires |name| < 0x1_0000 && keepAlive < 0x1_0000 && n < 0x1_0000 && |cut| < n
    ensures ClientID(PutBE16(|name|) + name + [level, flags] + PutBE16(keepAlive) + PutBE16(n) + cut) == []
    ensures forall p: bytes :: |p| < 10 ==> ClientID(p) == []
  {
    hide BE16, PutBE16;
    var p := PutBE16(|name|) + name + [level, flags] + PutBE16(keepAlive) + PutBE16(n) + cut;
    var k := 2 + |name| + 4;
    assert p[..2] == PutBE16(|name|) && p[0..2] == p[..2] && p[k..k + 2] == PutBE16(n);
    BE16Written(p, 0, |name|);
    BE16Written(p, k, n);
  }
}
