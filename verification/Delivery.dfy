/**
 Delivery of reassembled streams: `biStream` of internal/reassembly/stream.go, the bounded channel its
 streams share, and the dispatcher that consumes it (internal/dispatch/dispatcher.go).

 The reassembly engine is the environment: it opens streams, feeds them bytes, and completes each once,
 after its last byte. A completion makes up to three sends, and the dispatcher, which shares no lock with
 it, may receive between any two of them; so each send is a step of its own. Feeding makes at most one send
 and is one step, and so are a receive and the handling of what was received, which touch nothing a send
 touches. `FedStream` and `CompletionStep` say what the steps do to a stream and the channel; class
 `BiStream` is proved to do it; the theorems are about every interleaving of the steps of all streams, the
 dispatcher and the HTTP janitor.
 */
module Delivery {
  import opened Common
  import Http = HttpPairing

  /** maxBufferSize. */
  const MAX_BUFFER: nat := 262144

  /** `stream` tells the streams apart; `conn` is the identifier the message carries, which may be reused. */
  datatype Msg = Data(stream: nat, conn: Http.U64, isClient: bool, payload: bytes) | Closed(stream: nat, conn: Http.U64)

  /**
   One direction: its buffer, and for the record everything the engine fed into it, the chunks flushed
   from it, and whether each chunk found room in the channel.
   */
  datatype Side = Side(buf: bytes, fed: bytes, flushed: seq<bytes>, sent: seq<bool>)

  /** What a stream does next: take data, or the second or third send of its completion, or nothing. */
  datatype Phase = Receiving | FlushingServer | Closing | Complete

  /** `marked` records whether the close marker found room. */
  datatype Stream = Stream(id: nat, conn: Http.U64, client: Side, server: Side, phase: Phase, marked: bool)

  const EMPTY: Side := Side([], [], [], [])

  function Fresh(id: nat, conn: Http.U64): Stream { Stream(id, conn, EMPTY, EMPTY, Receiving, false) }

  function SideOf(s: Stream, isClient: bool): Side { if isClient then s.client else s.server }

  function WithSide(s: Stream, isClient: bool, side: Side): Stream {
    if isClient then s.(client := side) else s.(server := side)
  }

  // ------------------------------------------------------------------ what the callbacks do

  /** The non-blocking send: dropped when the channel is full. */
  function Offered(queue: seq<Msg>, cap: nat, m: Msg): seq<Msg> {
    if |queue| < cap then queue + [m] else queue
  }

  function Flushed(s: Stream, queue: seq<Msg>, cap: nat, isClient: bool): (Stream, seq<Msg>) {
    var side := SideOf(s, isClient);
    if side.buf == [] then (s, queue)
    else
      (WithSide(s, isClient, Side([], side.fed, side.flushed + [side.buf], side.sent + [|queue| < cap])),
       Offered(queue, cap, Data(s.id, s.conn, isClient, side.buf)))
  }

  function FedStream(s: Stream, queue: seq<Msg>, cap: nat, isClient: bool, data: bytes): (Stream, seq<Msg>) {
    var side := SideOf(s, isClient);
    var t := WithSide(s, isClient, side.(buf := side.buf + data, fed := side.fed + data));
    if |side.buf + data| >= MAX_BUFFER then Flushed(t, queue, cap, isClient) else (t, queue)
  }

  /** The next send of a completion: the client's chunk, the server's, the close marker. */
  function CompletionStep(s: Stream, queue: seq<Msg>, cap: nat): (Stream, seq<Msg>) {
    match s.phase
    case Receiving => var (t, q) := Flushed(s, queue, cap, true); (t.(phase := FlushingServer), q)
    case FlushingServer => var (t, q) := Flushed(s, queue, cap, false); (t.(phase := Closing), q)
    case Closing => (s.(phase := Complete, marked := |queue| < cap), Offered(queue, cap, Closed(s.id, s.conn)))
    case Complete => (s, queue)
  }

  /** What is left after n receives; a receive from an empty channel waits. */
  function Received(queue: seq<Msg>, n: nat): seq<Msg> {
    if n < |queue| then queue[n..] else []
  }

  // ------------------------------------------------------------------ the objects

  class Channel {
    var queue: seq<Msg>
    const cap: nat

    constructor (cap: nat)
      ensures queue == [] && this.cap == cap
    {
      queue := [];
      this.cap := cap;
    }

    method TrySend(m: Msg) returns (ok: bool)
      modifies this
      ensures queue == Offered(old(queue), cap, m) && ok == (|old(queue)| < cap)
    {
      ok := |queue| < cap;
      if ok { queue := queue + [m]; }
    }

    /** The dispatcher's receives. */
    method Receive(n: nat)
      modifies this
      ensures queue == Received(old(queue), n)
    {
      for i := 0 to n
        invariant queue == Received(old(queue), i)
      {
        if |queue| == 0 { return; }
        queue := queue[1..];
      }
    }
  }

  class BiStream {
    const id: nat
    const conn: Http.U64
    const output: Channel
    var clientBuf: bytes
    var serverBuf: bytes
    ghost var client: Side
    ghost var server: Side
    ghost var phase: Phase
    ghost var marked: bool

    ghost predicate Valid()
      reads this
    {
      client.buf == clientBuf && server.buf == serverBuf
    }

    ghost function View(): Stream
      reads this
    {
      Stream(id, conn, client, server, phase, marked)
    }

    constructor (id: nat, conn: Http.U64, output: Channel)
      ensures Valid() && View() == Fresh(id, conn) && this.output == output
    {
      this.id, this.conn, this.output := id, conn, output;
      clientBuf, serverBuf := [], [];
      client, server, phase, marked := EMPTY, EMPTY, Receiving, false;
    }

    method FlushDirection(isClient: bool)
      requires Valid()
      modifies this, output
      ensures Valid()
      ensures (View(), output.queue) == Flushed(old(View()), old(output.queue), output.cap, isClient)
    {
      var payload := if isClient then clientBuf else serverBuf;
      if |payload| == 0 { return; }
      if isClient { clientBuf := []; } else { serverBuf := []; }
      var ok := output.TrySend(Data(id, conn, isClient, payload));
      ghost var side := if isClient then client else server;
      side := Side([], side.fed, side.flushed + [payload], side.sent + [ok]);
      if isClient { client := side; } else { server := side; }
    }

    /** Data in order from the engine. */
    method ReassembledSG(isClient: bool, data: bytes)
      requires Valid()
      modifies this, output
      ensures Valid()
      ensures data == [] ==> View() == old(View()) && output.queue == old(output.queue)
      ensures data != [] ==>
        (View(), output.queue) == FedStream(old(View()), old(output.queue), output.cap, isClient, data)
    {
      if |data| == 0 { return; }
      var length: nat;
      if isClient {
        clientBuf := clientBuf + data;
        client := client.(buf := clientBuf, fed := client.fed + data);
        length := |clientBuf|;
      } else {
        serverBuf := serverBuf + data;
        server := server.(buf := serverBuf, fed := server.fed + data);
        length := |serverBuf|;
      }
      if length >= MAX_BUFFER { FlushDirection(isClient); }
    }

    /** The close marker, dropped when the channel is full. */
    method EmitClose()
      requires Valid() && phase == Closing
      modifies this, output
      ensures Valid()
      ensures (View(), output.queue) == CompletionStep(old(View()), old(output.queue), output.cap)
    {
      var ok := output.TrySend(Closed(id, conn));
      phase, marked := Complete, ok;
    }

    /**
     The connection ended: flush both directions, then offer the close marker. The dispatcher receives
     `first` messages between the first and the second send and `second` before the third.
     */
    method ReassemblyComplete(first: nat, second: nat) returns (keep: bool)
      requires Valid() && phase == Receiving
      modifies this, output
      ensures Valid() && !keep && phase == Complete
      ensures
        var (s1, q1) := CompletionStep(old(View()), old(output.queue), output.cap);
        var (s2, q2) := CompletionStep(s1, Received(q1, first), output.cap);
        (View(), output.queue) == CompletionStep(s2, Received(q2, second), output.cap)
    {
      if |clientBuf| > 0 { FlushDirection(true); }
      phase := FlushingServer;
      output.Receive(first);
      if |serverBuf| > 0 { FlushDirection(false); }
      phase := Closing;
      output.Receive(second);
      EmitClose();
      keep := false;
    }
  }

  // ------------------------------------------------------------------ runs

  /** `Datagram` is a UDP packet taken as HTTP, which is parsed under the identifier 0. */
  datatype Action =
    | Open(stream: nat, conn: Http.U64)
    | Feed(stream: nat, isClient: bool, data: bytes)
    | CompleteOn(stream: nat)
    | Dispatch(isHttp: bool, messages: nat, now: int)
    | Datagram(messages: nat, now: int)
    | Evict(conn: Http.U64, now: int)

  /** The streams, the channel, what the dispatcher has taken from it, and what that did to the HTTP parser. */
  datatype World = World(cap: nat, streams: map<nat, Stream>, queue: seq<Msg>, consumed: seq<Msg>,
                         ops: seq<Http.Operation>)

  /** handleTCP: a marker closes the connection in every parser that keeps state; data may be parsed as HTTP. */
  function Handled(m: Msg, isHttp: bool, messages: nat, now: int): seq<Http.Operation> {
    match m
    case Closed(_, conn) => [Http.Close(conn)]
    case Data(_, conn, isClient, _) =>
      if isHttp then [Http.Parse(conn, if isClient then Request else Response, messages, now)] else []
  }

  /** A step that is not possible in a state leaves it unchanged. */
  function Stepped(w: World, a: Action): World {
    match a
    case Open(id, conn) =>
      if id in w.streams then w else w.(streams := w.streams[id := Fresh(id, conn)])
    case Feed(id, isClient, data) =>
      if id !in w.streams || !w.streams[id].phase.Receiving? || data == [] then w
      else
        var (s, q) := FedStream(w.streams[id], w.queue, w.cap, isClient, data);
        w.(streams := w.streams[id := s], queue := q)
    case CompleteOn(id) =>
      if id !in w.streams then w
      else
        var (s, q) := CompletionStep(w.streams[id], w.queue, w.cap);
        w.(streams := w.streams[id := s], queue := q)
    case Dispatch(isHttp, messages, now) =>
      if w.queue == [] then w
      else w.(queue := w.queue[1..], consumed := w.consumed + [w.queue[0]],
              ops := w.ops + Handled(w.queue[0], isHttp, messages, now))
    case Datagram(messages, now) => w.(ops := w.ops + [Http.Parse(0, Request, messages, now)])
    case Evict(conn, now) => w.(ops := w.ops + [Http.Evict(conn, now)])
  }

  function Run(cap: nat, actions: seq<Action>): World {
    if actions == [] then World(cap, map[], [], [], [])
    else Stepped(Run(cap, actions[..|actions| - 1]), actions[|actions| - 1])
  }

  /** Everything that was ever enqueued, in order. */
  function Log(w: World): seq<Msg> { w.consumed + w.queue }

  // ------------------------------------------------------------------ conservation and order

  /** The chunks of a list that are marked. */
  function Kept(chunks: seq<bytes>, sent: seq<bool>): seq<bytes>
    requires |chunks| == |sent|
  {
    if chunks == [] then []
    else Kept(chunks[..|chunks| - 1], sent[..|sent| - 1]) + (if sent[|sent| - 1] then [chunks[|chunks| - 1]] else [])
  }

  /** The payloads of one direction of one stream, in the order they were enqueued. */
  function Payloads(log: seq<Msg>, id: nat, isClient: bool): seq<bytes> {
    if log == [] then []
    else
      var m := log[|log| - 1];
      Payloads(log[..|log| - 1], id, isClient)
      + (if m.Data? && m.stream == id && m.isClient == isClient then [m.payload] else [])
  }

  /** Nothing lost inside the stream, and the buffer below the threshold. */
  ghost predicate Conserved(side: Side) {
    && side.fed == Concat(side.flushed) + side.buf
    && |side.sent| == |side.flushed|
    && |side.buf| < MAX_BUFFER
  }

  /** The log holds a stream's close marker. */
  ghost predicate Marked(log: seq<Msg>, id: nat) {
    exists i :: 0 <= i < |log| && log[i].Closed? && log[i].stream == id
  }

  ghost predicate Tracked(s: Stream, log: seq<Msg>) {
    && Conserved(s.client) && Conserved(s.server)
    && Payloads(log, s.id, true) == Kept(s.client.flushed, s.client.sent)
    && Payloads(log, s.id, false) == Kept(s.server.flushed, s.server.sent)
    && (!s.phase.Receiving? ==> s.client.buf == [])
    && (s.phase.Closing? || s.phase.Complete? ==> s.server.buf == [])
    && (s.marked ==> s.phase.Complete?)
    && (s.marked <==> Marked(log, s.id))
  }

  /** A marker is the last message of its stream. */
  ghost predicate ClosedLast(log: seq<Msg>) {
    forall i, j :: 0 <= i < j < |log| && log[i].Closed? ==> log[j].stream != log[i].stream
  }

  ghost predicate Invariant(w: World) {
    && |w.queue| <= w.cap
    && ClosedLast(Log(w))
    && (forall i :: 0 <= i < |Log(w)| ==>
          var m := Log(w)[i];
          m.stream in w.streams && m.conn == w.streams[m.stream].conn
          && (m.Closed? ==> w.streams[m.stream].phase.Complete?))
    && (forall id :: id in w.streams ==> w.streams[id].id == id && Tracked(w.streams[id], Log(w)))
  }

  lemma KeptSnoc(chunks: seq<bytes>, sent: seq<bool>, chunk: bytes, ok: bool)
    requires |chunks| == |sent|
    ensures Kept(chunks + [chunk], sent + [ok]) == Kept(chunks, sent) + (if ok then [chunk] else [])
  {
    assert (chunks + [chunk])[..|chunks|] == chunks && (sent + [ok])[..|sent|] == sent;
  }

  lemma PayloadsSnoc(log: seq<Msg>, m: Msg, id: nat, isClient: bool)
    ensures Payloads(log + [m], id, isClient)
         == Payloads(log, id, isClient)
          + (if m.Data? && m.stream == id && m.isClient == isClient then [m.payload] else [])
  {
    assert (log + [m])[..|log|] == log;
  }

  lemma ConcatSnoc(chunks: seq<bytes>, chunk: bytes)
    ensures Concat(chunks + [chunk]) == Concat(chunks) + chunk
  {
    ConcatAppend(chunks, [chunk]);
    assert Concat([chunk]) == chunk + Concat([]);
  }

  /** What one callback adds to the log: messages of its own stream, none when the channel has no room. */
  ghost predicate Extends(q: seq<Msg>, r: seq<Msg>, cap: nat, s: Stream) {
    && q <= r && |r| <= cap
    && forall i :: |q| <= i < |r| ==> r[i].stream == s.id && r[i].conn == s.conn
  }

  /** Conservation without the bound on the buffer, which a callback may exceed before it flushes. */
  ghost predicate Accounted(side: Side) {
    side.fed == Concat(side.flushed) + side.buf && |side.sent| == |side.flushed|
  }

  ghost function Kept'(side: Side): seq<bytes> {
    if |side.flushed| == |side.sent| then Kept(side.flushed, side.sent) else []
  }

  /** Flushing keeps a stream tracked, whatever was enqueued before. */
  lemma FlushTracks(s: Stream, before: seq<Msg>, queue: seq<Msg>, cap: nat, isClient: bool)
    requires |queue| <= cap
    requires Payloads(before + queue, s.id, true) == Kept'(s.client)
    requires Payloads(before + queue, s.id, false) == Kept'(s.server)
    requires Accounted(s.client) && Accounted(s.server)
    ensures var (t, r) := Flushed(s, queue, cap, isClient);
      && Payloads(before + r, s.id, true) == Kept'(t.client) && Payloads(before + r, s.id, false) == Kept'(t.server)
      && Accounted(t.client) && Accounted(t.server)
      && SideOf(t, isClient).buf == [] && SideOf(t, !isClient) == SideOf(s, !isClient)
      && t.id == s.id && t.conn == s.conn && t.phase == s.phase && t.marked == s.marked
      && Extends(queue, r, cap, s) && (forall i :: |queue| <= i < |r| ==> r[i].Data?)
  {
    hide Kept, Payloads, Concat;
    var side := SideOf(s, isClient);
    if side.buf != [] {
      var m := Data(s.id, s.conn, isClient, side.buf);
      KeptSnoc(side.flushed, side.sent, side.buf, |queue| < cap);
      ConcatSnoc(side.flushed, side.buf);
      if |queue| < cap {
        assert before + (queue + [m]) == (before + queue) + [m];
        PayloadsSnoc(before + queue, m, s.id, true);
        PayloadsSnoc(before + queue, m, s.id, false);
      }
    }
  }

  lemma FeedTracks(s: Stream, before: seq<Msg>, queue: seq<Msg>, cap: nat, isClient: bool, data: bytes)
    requires |queue| <= cap && Tracked(s, before + queue) && s.phase.Receiving?
    ensures var (t, r) := FedStream(s, queue, cap, isClient, data);
      && Tracked(t, before + r) && t.id == s.id && t.conn == s.conn
      && Extends(queue, r, cap, s) && (forall i :: |queue| <= i < |r| ==> r[i].Data?)
  {
    hide Kept, Payloads, Concat;
    var side := SideOf(s, isClient);
    var t := WithSide(s, isClient, side.(buf := side.buf + data, fed := side.fed + data));
    assert Concat(side.flushed) + side.buf + data == Concat(side.flushed) + (side.buf + data);
    FlushTracks(t, before, queue, cap, isClient);
    ChunksDoNotMark(before, queue, FedStream(s, queue, cap, isClient, data).1, s.id);
  }

  /** Chunks behind a log add no marker. */
  lemma ChunksDoNotMark(log: seq<Msg>, queue: seq<Msg>, r: seq<Msg>, id: nat)
    requires queue <= r && forall i :: |queue| <= i < |r| ==> r[i].Data?
    ensures Marked(log + r, id) <==> Marked(log + queue, id)
  {
    if Marked(log + r, id) {
      var i :| 0 <= i < |log + r| && (log + r)[i].Closed? && (log + r)[i].stream == id;
      assert (log + queue)[i] == (log + r)[i];
    }
    if Marked(log + queue, id) {
      var i :| 0 <= i < |log + queue| && (log + queue)[i].Closed? && (log + queue)[i].stream == id;
      assert (log + r)[i] == (log + queue)[i];
    }
  }

  lemma CompletionTracks(s: Stream, before: seq<Msg>, queue: seq<Msg>, cap: nat)
    requires |queue| <= cap && Tracked(s, before + queue) && !s.phase.Complete?
    ensures var (t, r) := CompletionStep(s, queue, cap); Tracked(t, before + r)
  {
    hide Kept, Payloads, Concat, Flushed, Marked;
    if s.phase.Closing? {
      MarkerTracks(s, before, queue, cap);
    } else {
      var isClient := s.phase.Receiving?;
      FlushTracks(s, before, queue, cap, isClient);
      ChunksDoNotMark(before, queue, Flushed(s, queue, cap, isClient).1, s.id);
    }
  }

  /** A step of a completion enqueues its stream's messages, the marker last. */
  lemma CompletionExtends(s: Stream, queue: seq<Msg>, cap: nat)
    requires |queue| <= cap
    ensures var (t, r) := CompletionStep(s, queue, cap);
      && t.id == s.id && t.conn == s.conn
      && Extends(queue, r, cap, s) && (forall i :: |queue| <= i < |r| - 1 ==> r[i].Data?)
      && (r != queue && r[|r| - 1].Closed? ==> t.phase.Complete?)
  {}

  lemma MarkerTracks(s: Stream, before: seq<Msg>, queue: seq<Msg>, cap: nat)
    requires |queue| <= cap && Tracked(s, before + queue) && s.phase.Closing?
    ensures var (t, r) := CompletionStep(s, queue, cap); Tracked(t, before + r) && Extends(queue, r, cap, s)
  {
    hide Kept, Payloads, Concat;
    var m := Closed(s.id, s.conn);
    if |queue| < cap {
      assert before + (queue + [m]) == (before + queue) + [m];
      PayloadsSnoc(before + queue, m, s.id, true);
      PayloadsSnoc(before + queue, m, s.id, false);
      assert (before + (queue + [m]))[|before + queue|] == m;
    }
  }

  /** Messages of another stream do not show in a stream's payloads. */
  lemma {:induction false} OthersInvisible(log: seq<Msg>, more: seq<Msg>, id: nat, isClient: bool)
    requires forall i :: 0 <= i < |more| ==> more[i].stream != id
    ensures Payloads(log + more, id, isClient) == Payloads(log, id, isClient)
    decreases |more|
  {
    if more == [] {
      assert log + more == log;
    } else {
      var front, m := more[..|more| - 1], more[|more| - 1];
      assert log + more == (log + front) + [m];
      PayloadsSnoc(log + front, m, id, isClient);
      OthersInvisible(log, front, id, isClient);
    }
  }

  lemma OthersDoNotMark(log: seq<Msg>, more: seq<Msg>, id: nat)
    requires forall i :: 0 <= i < |more| ==> more[i].stream != id
    ensures Marked(log + more, id) <==> Marked(log, id)
  {
    if Marked(log, id) {
      var i :| 0 <= i < |log| && log[i].Closed? && log[i].stream == id;
      assert (log + more)[i] == log[i];
    }
  }

  lemma OthersStayTracked(s: Stream, log: seq<Msg>, more: seq<Msg>)
    requires Tracked(s, log) && forall i :: 0 <= i < |more| ==> more[i].stream != s.id
    ensures Tracked(s, log + more)
  {
    hide Payloads, Kept, Conserved, Marked;
    OthersDoNotMark(log, more, s.id);
    OthersInvisible(log, more, s.id, true);
    OthersInvisible(log, more, s.id, false);
  }

  /** A marker, if a callback enqueues one, comes last and nothing of its stream was behind one before. */
  lemma StaysClosedLast(w: World, id: nat, more: seq<Msg>)
    requires Invariant(w) && id in w.streams && !w.streams[id].phase.Complete?
    requires forall i :: 0 <= i < |more| ==> more[i].stream == id
    requires forall i :: 0 <= i < |more| - 1 ==> more[i].Data?
    ensures ClosedLast(Log(w) + more)
  {
    hide Tracked;
    var log := Log(w) + more;
    forall i, j | 0 <= i < j < |log| && log[i].Closed? ensures log[j].stream != log[i].stream {
      if i < |Log(w)| {
        assert log[i] == Log(w)[i];
        if j < |Log(w)| { assert log[j] == Log(w)[j]; }
      }
    }
  }

  /** A callback on one stream keeps the invariant of all. */
  lemma CallbackKeeps(w: World, id: nat, t: Stream, r: seq<Msg>)
    requires Invariant(w) && id in w.streams && !w.streams[id].phase.Complete?
    requires Tracked(t, w.consumed + r) && t.id == id && t.conn == w.streams[id].conn
    requires Extends(w.queue, r, w.cap, w.streams[id])
    requires forall i :: |w.queue| <= i < |r| - 1 ==> r[i].Data?
    requires r != w.queue && r[|r| - 1].Closed? ==> t.phase.Complete?
    ensures Invariant(w.(streams := w.streams[id := t], queue := r))
  {
    hide Tracked, ClosedLast;
    var v := w.(streams := w.streams[id := t], queue := r);
    var more := r[|w.queue|..];
    assert r == w.queue + more;
    assert Log(v) == Log(w) + more;
    StaysClosedLast(w, id, more);
    forall c | c in v.streams && c != id ensures Tracked(v.streams[c], Log(v)) {
      OthersStayTracked(w.streams[c], Log(w), more);
    }
    forall i | 0 <= i < |Log(v)|
      ensures var m := Log(v)[i];
        m.stream in v.streams && m.conn == v.streams[m.stream].conn
        && (m.Closed? ==> v.streams[m.stream].phase.Complete?)
    {
      if i < |Log(w)| { assert Log(v)[i] == Log(w)[i]; } else { assert Log(v)[i] == r[i - |w.consumed|]; }
    }
  }

  lemma DispatchKeepsLog(w: World, a: Action)
    requires a.Dispatch? || a.Datagram? || a.Evict?
    ensures Log(Stepped(w, a)) == Log(w)
  {
    if a.Dispatch? && w.queue != [] {
      assert w.queue == [w.queue[0]] + w.queue[1..];
    }
  }

  lemma StepKeeps(w: World, a: Action)
    requires Invariant(w)
    ensures Invariant(Stepped(w, a))
  {
    hide Payloads, Kept, Conserved, Tracked, FedStream, CompletionStep;
    match a
    case Open(id, conn) => OpenKeeps(w, id, conn);
    case Feed(id, isClient, data) =>
      if id in w.streams && w.streams[id].phase.Receiving? && data != [] {
        var (t, r) := FedStream(w.streams[id], w.queue, w.cap, isClient, data);
        FeedTracks(w.streams[id], w.consumed, w.queue, w.cap, isClient, data);
        CallbackKeeps(w, id, t, r);
      }
    case CompleteOn(id) =>
      if id in w.streams {
        var (t, r) := CompletionStep(w.streams[id], w.queue, w.cap);
        if w.streams[id].phase.Complete? {
          NothingMore(w, id);
        } else {
          CompletionExtends(w.streams[id], w.queue, w.cap);
          CompletionTracks(w.streams[id], w.consumed, w.queue, w.cap);
          CallbackKeeps(w, id, t, r);
        }
      }
    case Dispatch(_, _, _) => DispatchKeepsLog(w, a);
    case Datagram(_, _) => DispatchKeepsLog(w, a);
    case Evict(_, _) => DispatchKeepsLog(w, a);
  }

  /** A complete stream does nothing more. */
  lemma NothingMore(w: World, id: nat)
    requires id in w.streams && w.streams[id].phase.Complete?
    ensures Stepped(w, CompleteOn(id)) == w
  {
    assert w.streams[id := w.streams[id]] == w.streams;
  }

  lemma OpenKeeps(w: World, id: nat, conn: Http.U64)
    requires Invariant(w)
    ensures Invariant(Stepped(w, Open(id, conn)))
  {
    hide Tracked, ClosedLast, Log;
    if id !in w.streams {
      var v := Stepped(w, Open(id, conn));
      SameLog(w, id, conn);
      assert forall i :: 0 <= i < |Log(w)| ==> Log(w)[i].stream != id;
      NewTracked(id, conn);
      OthersStayTracked(Fresh(id, conn), [], Log(w));
      assert [] + Log(w) == Log(w);
      assert forall c :: c in v.streams ==> v.streams[c] == if c == id then Fresh(id, conn) else w.streams[c];
    }
  }

  lemma SameLog(w: World, id: nat, conn: Http.U64)
    ensures Log(Stepped(w, Open(id, conn))) == Log(w)
  {}

  lemma NewTracked(id: nat, conn: Http.U64)
    ensures Tracked(Fresh(id, conn), [])
  {}

  lemma {:induction false} RunKeeps(cap: nat, actions: seq<Action>)
    ensures Invariant(Run(cap, actions))
  {
    hide Invariant, Stepped;
    if actions == [] {
      StartHolds(cap);
    } else {
      RunKeeps(cap, actions[..|actions| - 1]);
      StepKeeps(Run(cap, actions[..|actions| - 1]), actions[|actions| - 1]);
    }
  }

  lemma StartHolds(cap: nat)
    ensures Invariant(World(cap, map[], [], [], []))
  {}

  /**
   Conservation and order, in every reachable state and for each direction of each stream: the bytes fed
   are the flushed chunks in order followed by the buffer, which is below the threshold; what has been
   enqueued is the chunks that found room, in order; and what the consumer has is a prefix of that.
   */
  lemma StreamConservation(cap: nat, actions: seq<Action>, id: nat, isClient: bool)
    requires id in Run(cap, actions).streams
    ensures var w := Run(cap, actions);
      var side := SideOf(w.streams[id], isClient);
      && side.fed == Concat(side.flushed) + side.buf && |side.buf| < 262144
      && |side.sent| == |side.flushed| && |w.queue| <= cap
      && Payloads(Log(w), id, isClient) == Kept(side.flushed, side.sent)
      && Payloads(w.consumed, id, isClient) <= Kept(side.flushed, side.sent)
  {
    hide Run, Payloads, Kept;
    RunKeeps(cap, actions);
    CapKept(cap, actions);
    var w := Run(cap, actions);
    PayloadsPrefix(w.consumed, w.queue, id, isClient);
  }

  lemma {:induction false} CapKept(cap: nat, actions: seq<Action>)
    ensures Run(cap, actions).cap == cap
  {
    hide FedStream, CompletionStep, Handled;
    if actions != [] { CapKept(cap, actions[..|actions| - 1]); }
  }

  lemma {:induction false} PayloadsPrefix(log: seq<Msg>, more: seq<Msg>, id: nat, isClient: bool)
    ensures Payloads(log, id, isClient) <= Payloads(log + more, id, isClient)
    decreases |more|
  {
    if more == [] {
      assert log + more == log;
    } else {
      var front, m := more[..|more| - 1], more[|more| - 1];
      assert log + more == (log + front) + [m];
      PayloadsSnoc(log + front, m, id, isClient);
      PayloadsPrefix(log, front, id, isClient);
    }
  }

  lemma {:induction false} KeptAll(chunks: seq<bytes>, sent: seq<bool>)
    requires |chunks| == |sent| && forall i :: 0 <= i < |sent| ==> sent[i]
    ensures Kept(chunks, sent) == chunks
  {
    if chunks != [] {
      KeptAll(chunks[..|chunks| - 1], sent[..|sent| - 1]);
    }
  }

  /** When no chunk was dropped and the channel is drained, the consumer has every byte but the buffered ones. */
  lemma WholeStreamDelivered(cap: nat, actions: seq<Action>, id: nat, isClient: bool)
    requires id in Run(cap, actions).streams && Run(cap, actions).queue == []
    requires var side := SideOf(Run(cap, actions).streams[id], isClient);
      forall i :: 0 <= i < |side.sent| ==> side.sent[i]
    ensures var w := Run(cap, actions);
      var side := SideOf(w.streams[id], isClient);
      side.fed == Concat(Payloads(w.consumed, id, isClient)) + side.buf
  {
    hide Run, Payloads, Kept, Concat;
    StreamConservation(cap, actions, id, isClient);
    var w := Run(cap, actions);
    var side := SideOf(w.streams[id], isClient);
    KeptAll(side.flushed, side.sent);
    assert Log(w) == w.consumed;
  }

  /**
   Close never overtakes data: in every run, when a close marker stands at a position of the log, its
   stream is complete with empty buffers, every chunk of it that was ever enqueued stands before the
   marker, and nothing of it stands after.
   */
  lemma CloseNeverOvertakes(cap: nat, actions: seq<Action>, i: nat)
    requires i < |Log(Run(cap, actions))| && Log(Run(cap, actions))[i].Closed?
    ensures var w := Run(cap, actions);
      var id := Log(w)[i].stream;
      && id in w.streams && w.streams[id].phase.Complete? && w.streams[id].marked
      && (forall j :: i < j < |Log(w)| ==> Log(w)[j].stream != id)
      && (forall isClient: bool :: var side := SideOf(w.streams[id], isClient);
            && side.buf == [] && side.fed == Concat(side.flushed) && |side.flushed| == |side.sent|
            && Payloads(Log(w)[..i], id, isClient) == Kept(side.flushed, side.sent))
  {
    hide Run, Payloads, Kept, Concat;
    RunKeeps(cap, actions);
    var w := Run(cap, actions);
    var id := Log(w)[i].stream;
    forall isClient: bool
      ensures var side := SideOf(w.streams[id], isClient);
        && side.buf == [] && side.fed == Concat(side.flushed) && |side.flushed| == |side.sent|
        && Payloads(Log(w)[..i], id, isClient) == Kept(side.flushed, side.sent)
    {
      var log := Log(w);
      assert log == (log[..i] + [log[i]]) + log[i + 1..];
      OthersInvisible(log[..i] + [log[i]], log[i + 1..], id, isClient);
      PayloadsSnoc(log[..i], log[i], id, isClient);
    }
  }

  // ------------------------------------------------------------------ the threshold

  /** Chunks of a direction wait for 256 KiB; only a completion flushes less, and that once, at the end. */
  ghost predicate Filled(side: Side, ended: bool) {
    && (forall i :: 0 <= i < |side.flushed| ==> side.flushed[i] != [])
    && (forall i :: 0 <= i < |side.flushed| - (if ended then 1 else 0) ==> |side.flushed[i]| >= 262144)
  }

  ghost predicate WaitsForThreshold(s: Stream) {
    && Filled(s.client, !s.phase.Receiving?)
    && Filled(s.server, s.phase.Closing? || s.phase.Complete?)
  }

  lemma FeedWaits(s: Stream, queue: seq<Msg>, cap: nat, isClient: bool, data: bytes)
    requires WaitsForThreshold(s) && s.phase.Receiving? && data != []
    ensures var (t, r) := FedStream(s, queue, cap, isClient, data);
      && WaitsForThreshold(t)
      && (|SideOf(s, isClient).buf + data| < 262144 ==>
            r == queue && SideOf(t, isClient).buf == SideOf(s, isClient).buf + data
            && SideOf(t, isClient).flushed == SideOf(s, isClient).flushed)
  {}

  lemma CompletionWaits(s: Stream, queue: seq<Msg>, cap: nat)
    requires WaitsForThreshold(s)
    ensures WaitsForThreshold(CompletionStep(s, queue, cap).0)
  {}

  /**
   In every run: while a stream receives, each chunk flushed from either side has at least 256 KiB. Once it
   is being completed the same holds of a side but for the last chunk, which the completion flushed.
   */
  lemma {:induction false} ChunksWaitForThreshold(cap: nat, actions: seq<Action>, id: nat)
    requires id in Run(cap, actions).streams
    ensures WaitsForThreshold(Run(cap, actions).streams[id])
  {
    hide FedStream, CompletionStep, Filled, Handled;
    if actions != [] {
      var front, a := actions[..|actions| - 1], actions[|actions| - 1];
      var w := Run(cap, front);
      FreshWaits(id, if a.Open? then a.conn else 0);
      if id in w.streams {
        ChunksWaitForThreshold(cap, front, id);
        match a
        case Feed(_, isClient, data) =>
          if w.streams[id].phase.Receiving? && data != [] { FeedWaits(w.streams[id], w.queue, w.cap, isClient, data); }
        case CompleteOn(_) => CompletionWaits(w.streams[id], w.queue, w.cap);
        case _ =>
      }
    }
  }

  lemma FreshWaits(id: nat, conn: Http.U64)
    ensures WaitsForThreshold(Fresh(id, conn))
  {}

  // ------------------------------------------------------------------ from the engine

  /** What a run feeds into one direction of a stream before the stream is completed. */
  function Inputs(cap: nat, actions: seq<Action>, id: nat, isClient: bool): seq<bytes> {
    if actions == [] then []
    else
      var front, a := actions[..|actions| - 1], actions[|actions| - 1];
      var w, before := Run(cap, front), Inputs(cap, front, id, isClient);
      if a.Feed? && a.stream == id && a.isClient == isClient && id in w.streams && w.streams[id].phase.Receiving?
      then before + [a.data] else before
  }

  lemma FeedAppends(s: Stream, queue: seq<Msg>, cap: nat, isClient: bool, data: bytes)
    ensures var t := FedStream(s, queue, cap, isClient, data).0;
      SideOf(t, isClient).fed == SideOf(s, isClient).fed + data && SideOf(t, !isClient).fed == SideOf(s, !isClient).fed
  {}

  lemma CompletionFeedsNothing(s: Stream, queue: seq<Msg>, cap: nat)
    ensures var t := CompletionStep(s, queue, cap).0; t.client.fed == s.client.fed && t.server.fed == s.server.fed
  {}

  /** Nothing but what was fed into a direction is in it, in the order it was fed. */
  lemma {:induction false} FedIsInput(cap: nat, actions: seq<Action>, id: nat, isClient: bool)
    ensures id in Run(cap, actions).streams ==>
      SideOf(Run(cap, actions).streams[id], isClient).fed == Concat(Inputs(cap, actions, id, isClient))
    ensures id !in Run(cap, actions).streams ==> Inputs(cap, actions, id, isClient) == []
  {
    hide FedStream, CompletionStep, Handled, Concat;
    if actions == [] {
    } else {
      var front, a := actions[..|actions| - 1], actions[|actions| - 1];
      var w := Run(cap, front);
      FedIsInput(cap, front, id, isClient);
      EmptyConcat();
      match a
      case Feed(other, side, data) =>
        if other == id && id in w.streams && w.streams[id].phase.Receiving? {
          ConcatSnoc(Inputs(cap, front, id, isClient), data);
          FeedAppends(w.streams[id], w.queue, w.cap, side, data);
          assert SideOf(w.streams[id], isClient).fed + [] == SideOf(w.streams[id], isClient).fed;
        }
      case CompleteOn(_) =>
        if id in w.streams { CompletionFeedsNothing(w.streams[id], w.queue, w.cap); }
      case _ =>
    }
  }

  lemma EmptyConcat()
    ensures Concat([]) == []
  {}

  /** With room enough a completion enqueues the client's rest, then the server's, then the marker. */
  lemma CompletionInOrder(s: Stream, queue: seq<Msg>, cap: nat)
    requires s.phase.Receiving? && |queue| + 3 <= cap
    ensures var (s1, q1) := CompletionStep(s, queue, cap);
      var (s2, q2) := CompletionStep(s1, q1, cap);
      var (s3, q3) := CompletionStep(s2, q2, cap);
      && q3 == queue + (if s.client.buf == [] then [] else [Data(s.id, s.conn, true, s.client.buf)])
                     + (if s.server.buf == [] then [] else [Data(s.id, s.conn, false, s.server.buf)])
                     + [Closed(s.id, s.conn)]
      && s3.phase.Complete? && s3.marked && s3.client.buf == [] && s3.server.buf == []
  {}

  // ------------------------------------------------------------------ what stays as it is

  /** What a step adds to the log comes from a stream that is not complete; complete streams do not change. */
  lemma StepAdds(w: World, a: Action) returns (more: seq<Msg>)
    requires Invariant(w)
    ensures var v := Stepped(w, a);
      && Log(v) == Log(w) + more
      && (forall i :: 0 <= i < |more| ==>
            more[i].stream in w.streams && !w.streams[more[i].stream].phase.Complete?)
      && (forall id :: id in w.streams ==> id in v.streams && v.streams[id].conn == w.streams[id].conn)
      && (forall id :: id in w.streams && w.streams[id].phase.Complete? ==> v.streams[id] == w.streams[id])
  {
    hide Payloads, Kept, Conserved, ClosedLast, FedStream, CompletionStep;
    match a
    case Feed(id, isClient, data) =>
      if id in w.streams && w.streams[id].phase.Receiving? && data != [] {
        FeedTracks(w.streams[id], w.consumed, w.queue, w.cap, isClient, data);
        more := Stepped(w, a).queue[|w.queue|..];
      } else {
        more := [];
      }
    case CompleteOn(id) =>
      if id in w.streams && !w.streams[id].phase.Complete? {
        CompletionExtends(w.streams[id], w.queue, w.cap);
        more := Stepped(w, a).queue[|w.queue|..];
      } else {
        if id in w.streams { NothingMore(w, id); }
        more := [];
      }
    case Open(_, _) => more := [];
    case Dispatch(_, _, _) => DispatchKeepsLog(w, a); more := [];
    case Datagram(_, _) => DispatchKeepsLog(w, a); more := [];
    case Evict(_, _) => DispatchKeepsLog(w, a); more := [];
  }

  /** Over any continuation of a run the log only grows, and not by messages of streams complete before it. */
  lemma {:induction false} LogGrows(cap: nat, before: seq<Action>, after: seq<Action>)
    ensures var w, v := Run(cap, before), Run(cap, before + after);
      && Log(w) <= Log(v)
      && (forall id :: id in w.streams ==> id in v.streams && v.streams[id].conn == w.streams[id].conn)
      && (forall id :: id in w.streams && w.streams[id].phase.Complete? ==> v.streams[id] == w.streams[id])
      && (forall i :: |Log(w)| <= i < |Log(v)| && Log(v)[i].stream in w.streams ==>
            !w.streams[Log(v)[i].stream].phase.Complete?)
    decreases |after|
  {
    hide Invariant, Stepped, Log;
    if after == [] {
      assert before + after == before;
    } else {
      var front, a := after[..|after| - 1], after[|after| - 1];
      LogGrows(cap, before, front);
      RunKeeps(cap, before + front);
      assert (before + after)[..|before + after| - 1] == before + front;
      var more := StepAdds(Run(cap, before + front), a);
    }
  }

  // ------------------------------------------------------------------ the marker

  /**
   The marker is enqueued if and only if the channel has room when it is offered, and that settles it for
   the rest of the run.
   */
  lemma MarkerEnqueued(cap: nat, before: seq<Action>, id: nat, after: seq<Action>)
    requires id in Run(cap, before).streams && Run(cap, before).streams[id].phase.Closing?
    ensures var w, v := Run(cap, before), Run(cap, before + [CompleteOn(id)] + after);
      Marked(Log(v), id) <==> |w.queue| < cap
  {
    hide Payloads, Kept, Concat, Conserved, Log, Marked, Run;
    var w, a := Run(cap, before), CompleteOn(id);
    CapKept(cap, before);
    RunSnoc(cap, before, a);
    var u, v := Run(cap, before + [a]), Run(cap, before + [a] + after);
    assert u.streams[id].phase.Complete? && (u.streams[id].marked <==> |w.queue| < cap);
    LogGrows(cap, before + [a], after);
    RunKeeps(cap, before + [a] + after);
    assert v.streams[id] == u.streams[id] && v.streams[id].id == id && Tracked(v.streams[id], Log(v));
  }

  /**
   One slot and a chunk still buffered do not doom the marker: a receive between the two sends makes room
   for it. Without that receive it is lost.
   */
  lemma ReceiveMakesRoom(id: nat, conn: Http.U64, data: bytes, now: int)
    requires 0 < |data| < MAX_BUFFER
    ensures var start := [Open(id, conn), Feed(id, true, data), CompleteOn(id), CompleteOn(id)];
      && Marked(Log(Run(1, start + [Dispatch(false, 0, now)] + [CompleteOn(id)] + [])), id)
      && !Marked(Log(Run(1, start + [CompleteOn(id)] + [])), id)
  {
    var a, b, c := Open(id, conn), Feed(id, true, data), CompleteOn(id);
    RunSnoc(1, [], a);
    RunSnoc(1, [a], b);
    RunSnoc(1, [a, b], c);
    RunSnoc(1, [a, b, c], c);
    var start := [a, b, c, c];
    assert [] + [a] == [a] && [a] + [b] == [a, b] && [a, b] + [c] == [a, b, c] && [a, b, c] + [c] == start;
    assert Run(1, []) == World(1, map[], [], [], []);
    hide Run;
    var s := Run(1, start);
    assert |s.queue| == 1 && id in s.streams && s.streams[id].phase.Closing?;
    RunSnoc(1, start, Dispatch(false, 0, now));
    MarkerEnqueued(1, start, id, []);
    MarkerEnqueued(1, start + [Dispatch(false, 0, now)], id, []);
  }

  lemma RunSnoc(cap: nat, actions: seq<Action>, a: Action)
    ensures Run(cap, actions + [a]) == Stepped(Run(cap, actions), a)
  {
    assert (actions + [a])[..|actions|] == actions;
  }

  // ------------------------------------------------------------------ reuse of an identifier

  /** A stream opened after another was complete: all messages of the first come before all of the second. */
  lemma FirstBeforeSecond(
    cap: nat, before: seq<Action>, first: nat, second: nat, conn: Http.U64, after: seq<Action>, i: nat, j: nat)
    requires var w := Run(cap, before);
      first in w.streams && w.streams[first].phase.Complete? && second !in w.streams
    requires var log := Log(Run(cap, before + ([Open(second, conn)] + after)));
      i < |log| && j < |log| && log[i].stream == first && log[j].stream == second
    ensures i < j
  {
    hide Payloads, Kept, Concat, Log, Stepped;
    RunKeeps(cap, before);
    LogGrows(cap, before, [Open(second, conn)] + after);
    var w, v := Run(cap, before), Run(cap, before + ([Open(second, conn)] + after));
    hide Run;
    assert forall k :: 0 <= k < |Log(w)| ==> Log(v)[k] == Log(w)[k];
  }

  /** The last message on a connection that was consumed is data. */
  predicate EndsInData(log: seq<Msg>, conn: Http.U64) {
    log != []
    && var m := log[|log| - 1]; if m.conn == conn then m.Data? else EndsInData(log[..|log| - 1], conn)
  }

  lemma {:induction false} EndsInMarker(log: seq<Msg>, conn: Http.U64, i: nat)
    requires i < |log| && log[i].Closed? && log[i].conn == conn
    requires forall j :: i < j < |log| ==> log[j].conn != conn
    ensures !EndsInData(log, conn)
  {
    if i < |log| - 1 { EndsInMarker(log[..|log| - 1], conn, i); }
  }

  /** A marker of a connection. */
  ghost predicate HasMarkerOf(log: seq<Msg>, conn: Http.U64) {
    exists i :: 0 <= i < |log| && log[i].Closed? && log[i].conn == conn
  }

  /** What the consumed messages say about the HTTP parser. Identifier 0 is parsed for datagrams too. */
  ghost predicate Followed(w: World) {
    && (forall c: Http.U64 :: c != 0 && !EndsInData(w.consumed, c) ==> c !in Http.Run(w.ops).table)
    && (forall c: Http.U64 :: Http.Close(c) in w.ops ==> HasMarkerOf(w.consumed, c))
  }

  /** A datagram or an eviction closes nothing and leaves no state behind under another identifier. */
  lemma QuietFollowed(w: World, op: Http.Operation)
    requires Followed(w) && (op.Evict? || (op.Parse? && op.conn == 0))
    ensures Followed(w.(ops := w.ops + [op]))
  {
    hide EndsInData, HasMarkerOf, Http.Run;
    Http.RunStep(w.ops, op);
    assert forall c: Http.U64 :: Http.Close(c) in w.ops + [op] ==> Http.Close(c) in w.ops;
  }

  lemma StepFollowed(w: World, a: Action)
    requires Followed(w)
    ensures Followed(Stepped(w, a))
  {
    hide FedStream, CompletionStep, Http.Run;
    match a
    case Dispatch(isHttp, messages, now) =>
      if w.queue != [] {
        var m := w.queue[0];
        assert (w.consumed + [m])[..|w.consumed|] == w.consumed;
        var more := Handled(m, isHttp, messages, now);
        assert w.ops + [] == w.ops;
        if more != [] { Http.RunStep(w.ops, more[0]); }
        CloseFollowed(w, m, more);
      }
    case Datagram(messages, now) => QuietFollowed(w, Http.Parse(0, Request, messages, now));
    case Evict(conn, now) => QuietFollowed(w, Http.Evict(conn, now));
    case _ =>
  }

  lemma CloseFollowed(w: World, m: Msg, more: seq<Http.Operation>)
    requires Followed(w)
    requires forall op :: op in more && op.Close? ==> m.Closed? && op.conn == m.conn
    ensures forall c: Http.U64 :: Http.Close(c) in w.ops + more ==> HasMarkerOf(w.consumed + [m], c)
  {
    forall c: Http.U64 | Http.Close(c) in w.ops + more ensures HasMarkerOf(w.consumed + [m], c) {
      if Http.Close(c) in w.ops {
        var i :| 0 <= i < |w.consumed| && w.consumed[i].Closed? && w.consumed[i].conn == c;
        assert (w.consumed + [m])[i] == w.consumed[i];
      } else {
        assert Http.Close(c) in more;
        assert (w.consumed + [m])[|w.consumed|] == m;
      }
    }
  }

  lemma {:induction false} RunFollowed(cap: nat, actions: seq<Action>)
    ensures Followed(Run(cap, actions))
  {
    hide Followed, Stepped;
    if actions == [] {
      StartFollowed(cap);
    } else {
      RunFollowed(cap, actions[..|actions| - 1]);
      StepFollowed(Run(cap, actions[..|actions| - 1]), actions[|actions| - 1]);
    }
  }

  lemma StartFollowed(cap: nat)
    ensures Followed(World(cap, map[], [], [], []))
  {}

  /** A run in which a stream is opened in between. */
  function Opening(before: seq<Action>, id: nat, conn: Http.U64, after: seq<Action>): seq<Action> {
    before + ([Open(id, conn)] + after)
  }

  /**
   A reused identifier: `first` is opened with it when every earlier stream that carries it is complete,
   and `second` when `first` is complete, with none in between and none later; and the dispatcher is about
   to take the first message of `second`.
   */
  ghost predicate Reuse(
    cap: nat, start: seq<Action>, first: nat, middle: seq<Action>, second: nat, end: seq<Action>, conn: Http.U64)
  {
    var u := Run(cap, start);
    var v := Run(cap, Opening(start, first, conn, middle));
    var w := Run(cap, Opening(Opening(start, first, conn, middle), second, conn, end));
    && first !in u.streams
    && (forall id :: id in u.streams && u.streams[id].conn == conn ==> u.streams[id].phase.Complete?)
    && first in v.streams && v.streams[first].conn == conn && v.streams[first].phase.Complete?
    && (forall id :: id in v.streams && v.streams[id].conn == conn ==> id == first || id in u.streams)
    && second !in v.streams
    && (forall id :: id in w.streams && w.streams[id].conn == conn ==> id == second || id in v.streams)
    && w.queue != [] && w.queue[0].stream == second && w.queue[0].Data?
    && (forall i :: 0 <= i < |w.consumed| ==> w.consumed[i].stream != second)
  }

  /** No message of the identifier comes behind the first stream's marker before the second stream's. */
  lemma NothingBehindMarker(
    cap: nat, start: seq<Action>, first: nat, middle: seq<Action>, second: nat, end: seq<Action>, conn: Http.U64,
    i: nat, j: nat)
    requires Reuse(cap, start, first, middle, second, end, conn)
    requires var w := Run(cap, Opening(Opening(start, first, conn, middle), second, conn, end));
      i < j < |w.consumed| && w.consumed[i].Closed? && w.consumed[i].stream == first
    ensures Run(cap, Opening(Opening(start, first, conn, middle), second, conn, end)).consumed[j].conn != conn
  {
    hide Payloads, Kept, Concat, Run, Conserved, Marked, Tracked;
    var once := Opening(start, first, conn, middle);
    var twice := Opening(once, second, conn, end);
    var rest := middle + ([Open(second, conn)] + end);
    assert twice == start + ([Open(first, conn)] + rest);
    RunKeeps(cap, twice);
    LogGrows(cap, start, [Open(first, conn)] + rest);
    LogGrows(cap, once, [Open(second, conn)] + end);
    var u, v, w := Run(cap, start), Run(cap, once), Run(cap, twice);
    assert Log(w)[i] == w.consumed[i] && Log(w)[j] == w.consumed[j];
    var earlier := w.consumed[j].stream;
    if earlier in u.streams && u.streams[earlier].conn == conn {
      FirstBeforeSecond(cap, start, earlier, first, conn, rest, j, i);
    }
  }

  /** If the first stream's marker found room, it has been taken, and no state is left. */
  lemma MarkerCleared(
    cap: nat, start: seq<Action>, first: nat, middle: seq<Action>, second: nat, end: seq<Action>, conn: Http.U64)
    requires Reuse(cap, start, first, middle, second, end, conn) && conn != 0
    ensures var v := Run(cap, Opening(start, first, conn, middle));
      var w := Run(cap, Opening(Opening(start, first, conn, middle), second, conn, end));
      v.streams[first].marked ==> conn !in Http.Run(w.ops).table
  {
    hide Payloads, Kept, Concat, Http.Run, Run, Conserved;
    var once := Opening(start, first, conn, middle);
    var twice := Opening(once, second, conn, end);
    var v, w := Run(cap, once), Run(cap, twice);
    RunKeeps(cap, twice);
    RunFollowed(cap, twice);
    LogGrows(cap, once, [Open(second, conn)] + end);
    if v.streams[first].marked {
      var log, taken := Log(w), |w.consumed|;
      assert Marked(log, first);
      var i :| 0 <= i < |log| && log[i].Closed? && log[i].stream == first;
      assert log[taken] == w.queue[0];
      FirstBeforeSecond(cap, once, first, second, conn, end, i, taken);
      assert log[i] == w.consumed[i];
      forall j | i < j < |w.consumed| ensures w.consumed[j].conn != conn {
        NothingBehindMarker(cap, start, first, middle, second, end, conn, i, j);
      }
      EndsInMarker(w.consumed, conn, i);
    }
  }

  /** The number the next message of a direction of a connection gets. */
  function NextNumber(w: World, conn: Http.U64, dir: Dir): Http.U64 {
    Http.Next(Http.Fetched(Http.Run(w.ops).table, conn), dir)
  }

  /**
   When the numbering of the reusing stream starts at 0: if the marker found room, or no state is left, or
   the state that is left has counted nothing in this direction, up to the wrap of the counters; and only
   then. What is left is a matter of the operations alone: see `TableFromOperations`.
   */
  lemma ReuseStartsAtZero(
    cap: nat, start: seq<Action>, first: nat, middle: seq<Action>, second: nat, end: seq<Action>, conn: Http.U64,
    dir: Dir)
    requires Reuse(cap, start, first, middle, second, end, conn) && conn != 0
    ensures var v := Run(cap, Opening(start, first, conn, middle));
      var w := Run(cap, Opening(Opening(start, first, conn, middle), second, conn, end));
      && (v.streams[first].marked ==> !Http.StateLeft(w.ops, conn))
      && (NextNumber(w, conn, dir) == 0 <==>
            || v.streams[first].marked
            || !Http.StateLeft(w.ops, conn)
            || Http.Since(w.ops, conn, dir) % Http.TWO64 == 0)
  {
    hide Payloads, Kept, Concat, Http.Run, Run, Stepped, Http.StateLeft, Http.Since, Opening, Reuse;
    var w := Run(cap, Opening(Opening(start, first, conn, middle), second, conn, end));
    MarkerCleared(cap, start, first, middle, second, end, conn);
    Http.TableFromOperations(w.ops, conn);
  }

  /** Taking a chunk as HTTP numbers its messages from there, in any state. */
  lemma TakenFromThere(w: World, k: nat, now: int)
    requires w.queue != [] && w.queue[0].Data?
    ensures var m := w.queue[0];
      var dir := if m.isClient then Request else Response;
      var old_ := Http.Run(w.ops).trace;
      var new_ := Http.Run(Stepped(w, Dispatch(true, k, now)).ops).trace;
      && |new_| == |old_| + k && new_[..|old_|] == old_
      && forall i :: |old_| <= i < |new_| ==>
           && new_[i].conn == m.conn && new_[i].dir == dir
           && new_[i].n == (NextNumber(w, m.conn, dir) + (i - |old_|)) % Http.TWO64
  {
    hide Http.Run, Http.Next, Http.Fetched;
    var m := w.queue[0];
    var op := Http.Parse(m.conn, if m.isClient then Request else Response, k, now);
    assert Stepped(w, Dispatch(true, k, now)).ops == w.ops + [op];
    Http.RunStep(w.ops, op);
    Http.ParseFacts(Http.Run(w.ops), op);
  }

  /** No marker of an identifier found room, so the HTTP parser was never told of a close. */
  lemma NeverClosed(cap: nat, actions: seq<Action>, conn: Http.U64)
    requires var w := Run(cap, actions);
      forall id :: id in w.streams && w.streams[id].conn == conn ==> !w.streams[id].marked
    ensures Http.Close(conn) !in Run(cap, actions).ops
  {
    hide Payloads, Kept, Concat, Http.Run, Run, Conserved;
    var w := Run(cap, actions);
    RunKeeps(cap, actions);
    RunFollowed(cap, actions);
    forall k | 0 <= k < |w.consumed| && w.consumed[k].Closed? ensures w.consumed[k].conn != conn {
      assert Log(w)[k] == w.consumed[k];
      assert Marked(Log(w), w.consumed[k].stream);
    }
  }

  /**
   A lost marker: when no marker of the identifier found room, its counters live on until the janitor
   removes them. There is a state exactly when there was a Parse and since the last one no eviction with a
   cutoff past its stamp.
   */
  lemma LostMarkerKeepsState(cap: nat, actions: seq<Action>, conn: Http.U64)
    requires var w := Run(cap, actions);
      forall id :: id in w.streams && w.streams[id].conn == conn ==> !w.streams[id].marked
    ensures var ops := Run(cap, actions).ops;
      conn in Http.Run(ops).table <==>
        exists i :: 0 <= i < |ops| && ops[i].Parse? && ops[i].conn == conn
          && forall j :: i < j < |ops| ==>
               !(ops[j].Parse? && ops[j].conn == conn)
               && !(ops[j].Evict? && ops[j].conn == conn && ops[i].now < ops[j].now - Http.TTL)
  {
    hide Http.Run, Run;
    var ops := Run(cap, actions).ops;
    NeverClosed(cap, actions, conn);
    Http.TableFromOperations(ops, conn);
    forall i | 0 <= i < |ops| && ops[i].Parse?
      ensures Http.LeftBy(ops, conn, i) <==>
        ops[i].conn == conn
        && forall j :: i < j < |ops| ==>
             !(ops[j].Parse? && ops[j].conn == conn)
             && !(ops[j].Evict? && ops[j].conn == conn && ops[i].now < ops[j].now - Http.TTL)
    {
      assert forall j :: i < j < |ops| ==> ops[j] != Http.Close(conn);
    }
  }

  /** And while its Parse calls are timely, everything numbered on it, by whichever stream, is one lifetime. */
  lemma LostMarkerCountsOn(cap: nat, actions: seq<Action>, conn: Http.U64, i: nat, j: nat)
    requires var w := Run(cap, actions);
      && (forall id :: id in w.streams && w.streams[id].conn == conn ==> !w.streams[id].marked)
      && Http.Timely(w.ops, conn)
    requires var t := Http.Run(Run(cap, actions).ops).trace;
      i < |t| && j < |t| && t[i].conn == conn && t[j].conn == conn
    ensures var t := Http.Run(Run(cap, actions).ops).trace;
      t[i].life == t[j].life && t[i].n == Http.Rank(t, i) % Http.TWO64
  {
    hide Http.Run, Run, Http.Timely, Http.Rank;
    NeverClosed(cap, actions, conn);
    Http.JanitorKeepsNumbering(Run(cap, actions).ops, conn, i, j);
  }

  // ------------------------------------------------------------------ from streams to identifiers

  /** Messages in a list of chunks, when each holds what its bytes say. */
  function Sum(count: bytes -> nat, chunks: seq<bytes>): nat {
    if chunks == [] then 0 else Sum(count, chunks[..|chunks| - 1]) + count(chunks[|chunks| - 1])
  }

  /** Every chunk of the identifier that was taken was taken as HTTP, with as many messages as it holds. */
  ghost predicate TakenAsHttp(cap: nat, actions: seq<Action>, conn: Http.U64, count: bytes -> nat) {
    actions == []
    || var front, a := actions[..|actions| - 1], actions[|actions| - 1];
      && TakenAsHttp(cap, front, conn, count)
      && (a.Dispatch? && Run(cap, front).queue != [] ==>
            var m := Run(cap, front).queue[0];
            m.Data? && m.conn == conn ==> a.isHttp && a.messages == count(m.payload))
  }

  /** One stream carries the identifier, and no other. */
  ghost predicate Alone(w: World, id: nat, conn: Http.U64) {
    forall c :: c in w.streams ==> (w.streams[c].conn == conn <==> c == id)
  }

  /** What was parsed is what was consumed, and a connection that was closed is not parsed again. */
  ghost predicate ParsedAsConsumed(w: World, id: nat, conn: Http.U64, count: bytes -> nat) {
    && (forall dir: Dir :: Http.Parsed(w.ops, conn, dir) == Sum(count, Payloads(w.consumed, id, dir.Request?)))
    && Http.ClosedForGood(w.ops, conn)
  }

  lemma ParsedSnoc(ops: seq<Http.Operation>, op: Http.Operation, conn: Http.U64, dir: Dir)
    ensures Http.Parsed(ops + [op], conn, dir)
         == Http.Parsed(ops, conn, dir)
          + (if op.Parse? && op.conn == conn && op.dir == dir then op.messages else 0)
  {
    assert (ops + [op])[..|ops|] == ops;
  }

  lemma SumSnoc(count: bytes -> nat, chunks: seq<bytes>, chunk: bytes)
    ensures Sum(count, chunks + [chunk]) == Sum(count, chunks) + count(chunk)
  {
    assert (chunks + [chunk])[..|chunks|] == chunks;
  }

  /** Another operation, no Parse of the connection. */
  lemma QuietParsed(w: World, op: Http.Operation, id: nat, conn: Http.U64, count: bytes -> nat)
    requires ParsedAsConsumed(w, id, conn, count) && !(op.Parse? && op.conn == conn)
    ensures ParsedAsConsumed(w.(ops := w.ops + [op]), id, conn, count)
  {
    hide Http.Parsed, Sum, Payloads;
    forall dir: Dir ensures Http.Parsed(w.ops + [op], conn, dir) == Http.Parsed(w.ops, conn, dir) {
      ParsedSnoc(w.ops, op, conn, dir);
    }
  }

  /** The dispatcher takes a message. */
  lemma TakenParsed(w: World, id: nat, conn: Http.U64, count: bytes -> nat, isHttp: bool, messages: nat, now: int)
    requires Invariant(w) && Followed(w) && Alone(w, id, conn) && ParsedAsConsumed(w, id, conn, count)
    requires w.queue != []
    requires w.queue[0].Data? && w.queue[0].conn == conn ==> isHttp && messages == count(w.queue[0].payload)
    ensures ParsedAsConsumed(Stepped(w, Dispatch(isHttp, messages, now)), id, conn, count)
  {
    hide Http.Parsed, Http.ClosedForGood, Sum, Payloads, Tracked, Http.Run, EndsInData, HasMarkerOf;
    var m := w.queue[0];
    assert Log(w)[|w.consumed|] == m;
    var more := Handled(m, isHttp, messages, now);
    assert m.conn == conn <==> m.stream == id;
    PayloadsSnoc(w.consumed, m, id, true);
    PayloadsSnoc(w.consumed, m, id, false);
    var client, server := Payloads(w.consumed, id, true), Payloads(w.consumed, id, false);
    assert client + [] == client && server + [] == server;
    if m.Data? { SumSnoc(count, if m.isClient then client else server, m.payload); }
    if more == [] {
      assert w.ops + more == w.ops;
    } else {
      if m.Data? && m.conn == conn { NotYetClosed(w, id, conn); }
      ClosedSnoc(w.ops, more[0], conn);
      forall dir: Dir
        ensures Http.Parsed(w.ops + more, conn, dir) == Sum(count, Payloads(w.consumed + [m], id, dir.Request?))
      {
        ParsedSnoc(w.ops, more[0], conn, dir);
        assert more == [more[0]];
      }
    }
  }

  lemma ClosedSnoc(ops: seq<Http.Operation>, op: Http.Operation, conn: Http.U64)
    requires Http.ClosedForGood(ops, conn) && (op.Parse? && op.conn == conn ==> Http.Close(conn) !in ops)
    ensures Http.ClosedForGood(ops + [op], conn)
  {}

  /** While a chunk of the only stream of an identifier waits at the front, it was not closed. */
  lemma NotYetClosed(w: World, id: nat, conn: Http.U64)
    requires Invariant(w) && Followed(w) && Alone(w, id, conn)
    requires w.queue != [] && w.queue[0].conn == conn
    ensures Http.Close(conn) !in w.ops
  {
    hide Tracked, Http.Run, EndsInData;
    var log, taken := Log(w), |w.consumed|;
    assert log[taken] == w.queue[0];
    forall k | 0 <= k < taken && w.consumed[k].Closed? ensures w.consumed[k].conn != conn {
      assert log[k] == w.consumed[k];
    }
  }

  lemma StepParsed(w: World, a: Action, id: nat, conn: Http.U64, count: bytes -> nat)
    requires Invariant(w) && Followed(w) && Alone(w, id, conn) && ParsedAsConsumed(w, id, conn, count)
    requires conn != 0
    requires a.Dispatch? && w.queue != [] && w.queue[0].Data? && w.queue[0].conn == conn ==>
      a.isHttp && a.messages == count(w.queue[0].payload)
    ensures ParsedAsConsumed(Stepped(w, a), id, conn, count)
  {
    hide FedStream, CompletionStep, Http.Parsed, Http.ClosedForGood, Sum, Payloads, Invariant, Followed, Alone;
    match a
    case Dispatch(isHttp, messages, now) =>
      if w.queue != [] { TakenParsed(w, id, conn, count, isHttp, messages, now); }
    case Datagram(messages, now) => QuietParsed(w, Http.Parse(0, Request, messages, now), id, conn, count);
    case Evict(c, now) => QuietParsed(w, Http.Evict(c, now), id, conn, count);
    case _ =>
  }

  lemma {:induction false} RunParsed(cap: nat, actions: seq<Action>, id: nat, conn: Http.U64, count: bytes -> nat)
    requires Alone(Run(cap, actions), id, conn) && TakenAsHttp(cap, actions, conn, count) && conn != 0
    ensures ParsedAsConsumed(Run(cap, actions), id, conn, count)
  {
    hide ParsedAsConsumed, Stepped, Invariant, Followed, Log;
    if actions == [] {
      NothingParsed(cap, id, conn, count);
    } else {
      var front, a := actions[..|actions| - 1], actions[|actions| - 1];
      RunKeeps(cap, front);
      RunFollowed(cap, front);
      var more := StepAdds(Run(cap, front), a);
      assert Alone(Run(cap, front), id, conn);
      RunParsed(cap, front, id, conn, count);
      StepParsed(Run(cap, front), a, id, conn, count);
    }
  }

  lemma NothingParsed(cap: nat, id: nat, conn: Http.U64, count: bytes -> nat)
    ensures ParsedAsConsumed(World(cap, map[], [], [], []), id, conn, count)
  {}

  /** The k-th request and the k-th response of a connection have one identifier, and no third message has it. */
  ghost predicate Paired(t: seq<Http.Event>, conn: Http.U64, k: Http.U64, i: nat, j: nat) {
    && i < |t| && t[i].conn == conn && t[i].dir == Request && Http.Rank(t, i) == k
    && j < |t| && t[j].conn == conn && t[j].dir == Response && Http.Rank(t, j) == k
    && Http.Uid(t[i]) == Http.Uid(t[j]) == Http.MakeUid(conn, k)
    && forall m :: 0 <= m < |t| && t[m].conn == conn && Http.Uid(t[m]) == Http.MakeUid(conn, k) ==> m == i || m == j
  }

  /** A stream that alone carries its identifier and whose chunks were taken as HTTP, in time. */
  ghost predicate AllHttp(cap: nat, actions: seq<Action>, id: nat, conn: Http.U64, count: bytes -> nat) {
    var w := Run(cap, actions);
    && id in w.streams && w.streams[id].conn == conn && conn != 0 && Alone(w, id, conn)
    && TakenAsHttp(cap, actions, conn, count) && Http.Timely(w.ops, conn)
  }

  /** Nothing of a direction was dropped and nothing waits: the consumer has every chunk. */
  ghost predicate Drained(w: World, side: Side) {
    w.queue == [] && forall n :: 0 <= n < |side.sent| ==> side.sent[n]
  }

  /**
   End to end: when a stream alone carries its identifier, each of its chunks that was taken was taken as
   HTTP with the messages its bytes hold, and its Parse calls are timely, then the k-th request and the k-th
   response among those chunks share an identifier, and no third message of the connection has it.
   */
  lemma StreamPairs(cap: nat, actions: seq<Action>, id: nat, conn: Http.U64, count: bytes -> nat, k: Http.U64)
    returns (i: nat, j: nat)
    requires AllHttp(cap, actions, id, conn, count)
    requires var taken := Run(cap, actions).consumed;
      && k < Sum(count, Payloads(taken, id, true)) <= Http.TWO64
      && k < Sum(count, Payloads(taken, id, false)) <= Http.TWO64
    ensures Paired(Http.Run(Run(cap, actions).ops).trace, conn, k, i, j)
  {
    hide Run, Alone, TakenAsHttp, Payloads, Sum, Http.Timely, Http.ClosedForGood, Http.Run, Http.Rank, Http.MakeUid;
    hide Http.Parsed;
    RunParsed(cap, actions, id, conn, count);
    i, j := Http.PairsUp(Run(cap, actions).ops, conn, k);
  }

  /** With nothing dropped and the channel drained these are all requests and responses the stream flushed. */
  lemma DeliveredStreamPairs(
    cap: nat, actions: seq<Action>, id: nat, conn: Http.U64, count: bytes -> nat, k: Http.U64)
    returns (i: nat, j: nat)
    requires AllHttp(cap, actions, id, conn, count)
    requires var w := Run(cap, actions);
      var s := w.streams[id];
      && Drained(w, s.client) && k < Sum(count, s.client.flushed) <= Http.TWO64
      && Drained(w, s.server) && k < Sum(count, s.server.flushed) <= Http.TWO64
    ensures Paired(Http.Run(Run(cap, actions).ops).trace, conn, k, i, j)
  {
    hide Run, Alone, TakenAsHttp, Payloads, Kept, Sum, Http.Timely, Http.Run, Paired;
    RunKeeps(cap, actions);
    AllConsumed(Run(cap, actions), id, true);
    AllConsumed(Run(cap, actions), id, false);
    i, j := StreamPairs(cap, actions, id, conn, count, k);
  }

  lemma AllConsumed(w: World, id: nat, isClient: bool)
    requires id in w.streams && w.streams[id].id == id && Tracked(w.streams[id], Log(w))
    requires Drained(w, SideOf(w.streams[id], isClient))
    ensures Payloads(w.consumed, id, isClient) == SideOf(w.streams[id], isClient).flushed
  {
    hide Payloads, Kept, Concat;
    KeptAll(SideOf(w.streams[id], isClient).flushed, SideOf(w.streams[id], isClient).sent);
    assert Log(w) == w.consumed;
  }

  lemma MarkerTaken(w: World, isHttp: bool, messages: nat, now: int)
    requires w.queue != [] && w.queue[0].Closed?
    ensures Stepped(w, Dispatch(isHttp, messages, now)).ops == w.ops + [Http.Close(w.queue[0].conn)]
  {}

  /**
   Once the dispatcher has taken a marker, whoever sent it, the HTTP parser holds nothing for its
   identifier, and a chunk parsed on it next is numbered from 0.
   */
  lemma ReuseStartsAfresh(
    cap: nat, actions: seq<Action>, isHttp: bool, messages: nat, now: int, dir: Dir, k: nat, later: int)
    requires Run(cap, actions).queue != [] && Run(cap, actions).queue[0].Closed?
    ensures var conn := Run(cap, actions).queue[0].conn;
      var ops := Run(cap, actions + [Dispatch(isHttp, messages, now)]).ops;
      && conn !in Http.Run(ops).table
      && var trace, next := Http.Run(ops).trace, Http.Run(ops + [Http.Parse(conn, dir, k, later)]).trace;
         && |next| == |trace| + k
         && forall j :: |trace| <= j < |next| ==>
              next[j].conn == conn && next[j].n == (j - |trace|) % Http.TWO64
  {
    hide Http.Run, Stepped;
    var a := Dispatch(isHttp, messages, now);
    RunSnoc(cap, actions, a);
    var w := Run(cap, actions);
    hide Run;
    var conn := w.queue[0].conn;
    MarkerTaken(w, isHttp, messages, now);
    var ops := w.ops + [Http.Close(conn)];
    Http.CloseRestarts(ops, conn, dir, k, later);
  }
}
