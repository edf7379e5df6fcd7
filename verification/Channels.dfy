/**
 The goroutines and channels of cmd/netcap/main.go as one state machine: the main goroutine starts the
 stages and stops them in reverse, the stages' goroutines receive, send, return and close channels. Packets
 are counted, not looked at: what a goroutine sends it must have received, or, for a decode worker, have
 been given by the capture. How many events a packet or chunk makes, and when the reassembler sends what it
 was fed, is left open, and channels have no limit, so that every interleaving of the program is a run.
 */
module Channels {
  import opened Common

  datatype Stage = Decoder | Splitter | Reassembler | Kafka | Dispatcher | Metrics

  datatype Channel = DecodeOut | TcpIn | UdpIn | SplitterDone | ReassemblyOut | KafkaIn

  datatype Phase = NotStarted | Live | Returned

  datatype SplitterAt = Idle | Ranging | ClosingUdp | ClosingDone | Finished

  datatype Main = Starting | Running | Stopping | Ended

  datatype Config = Config(decodeWorkers: nat, kafkaWorkers: nat)

  /** The stages' goroutines: numbers of live decode workers and Kafka writers, and where the others are. */
  datatype Procs = Procs(
    decoders: nat, splitter: SplitterAt, reassembler: Phase, tcpLoop: Phase, udpLoop: Phase, writers: nat)

  /**
   The main goroutine: `up` holds the started stages not yet stopped, `todo` those not yet started. `inStop`
   names the last stage of `up` once its Stop is past the first of two steps, `failed` says that a stage
   could not start.
   */
  datatype Control = Control(main: Main, todo: seq<Stage>, up: seq<Stage>, inStop: Option<Stage>, failed: bool)

  /**
   What is under way: packets in the splitter's input and its two outputs, whether the reassembler was ever
   fed, chunks in its output, events each dispatcher loop has still to send, and events in the Kafka input.
   */
  datatype Flow = Flow(
    decoded: nat, tcp: nat, udp: nat, fed: bool, chunks: nat, tcpEvents: nat, udpEvents: nat, events: nat)

  datatype State = State(
    ctl: Control, procs: Procs, closed: set<Channel>, flow: Flow, cancelled: bool, captureEnded: bool, panicked: bool)

  datatype Action =
    | Launch | LaunchFails | Started | Cancel | CaptureEnds | Shutdown | StopStep
    | DecoderSends | SplitterSendsTcp | SplitterSendsUdp | ReassemblerSends | FlushSends | TcpLoopSends | UdpLoopSends
    | SplitterSkips | ReassemblerReceives | TcpLoopReceives(made: nat) | UdpLoopReceives(made: nat) | WriterReceives
    | TcpLoopDrops | UdpLoopDrops
    | DecoderReturns | ReassemblerReturns | TcpLoopReturns | UdpLoopReturns | WriterReturns
    | SplitterAdvances

  function Initial(order: seq<Stage>): State {
    var procs := Procs(0, Idle, NotStarted, NotStarted, NotStarted, 0);
    State(Control(Starting, order, [], None, false), procs, {}, Flow(0, 0, 0, false, 0, 0, 0, 0), false, false, false)
  }

  /** A send on a closed channel panics. */
  function Send(s: State, channel: Channel): State {
    if channel in s.closed then s.(panicked := true) else s
  }

  /** So does closing a channel twice. */
  function Close(s: State, channel: Channel): State {
    if channel in s.closed then s.(panicked := true) else s.(closed := s.closed + {channel})
  }

  function Top(ctl: Control): Stage
    requires ctl.up != []
  {
    ctl.up[|ctl.up| - 1]
  }

  function Popped(s: State): State
    requires s.ctl.up != []
  {
    s.(ctl := s.ctl.(up := s.ctl.up[..|s.ctl.up| - 1], inStop := None))
  }

  /** The goroutines a stage's Start launches. */
  function Launched(cfg: Config, p: Procs, stage: Stage): Procs {
    match stage
    case Decoder => p.(decoders := cfg.decodeWorkers)
    case Splitter => p.(splitter := Ranging)
    case Reassembler => p.(reassembler := Live)
    case Kafka => p.(writers := cfg.kafkaWorkers)
    case Dispatcher => p.(tcpLoop := Live, udpLoop := Live)
    case Metrics => p
  }

  function LaunchNext(cfg: Config, s: State): State
    requires s.ctl.todo != []
  {
    var stage := s.ctl.todo[0];
    s.(ctl := s.ctl.(up := s.ctl.up + [stage], todo := s.ctl.todo[1..]), procs := Launched(cfg, s.procs, stage))
  }

  /** The next step of the Stop of the last stage, or the same state while that step has to wait. */
  function StopTop(s: State): State
    requires s.ctl.up != []
  {
    var p, inStop := s.procs, s.ctl.inStop.Some?;
    match Top(s.ctl)
    case Decoder => if p.decoders == 0 then Close(Popped(s), DecodeOut) else s
    case Splitter => if SplitterDone in s.closed then Popped(s) else s
    case Reassembler =>
      if inStop then Close(Popped(s), ReassemblyOut)
      else if p.reassembler != Live then s.(ctl := s.ctl.(inStop := Some(Reassembler))) else s
    case Kafka =>
      if !inStop then Close(s.(ctl := s.ctl.(inStop := Some(Kafka))), KafkaIn)
      else if p.writers == 0 then Popped(s) else s
    case Dispatcher => if p.tcpLoop != Live && p.udpLoop != Live then Popped(s) else s
    case Metrics => Popped(s)
  }

  /** The splitter goroutine closes its two outputs once its input is closed, and the deferred close comes last. */
  function AdvanceSplitter(s: State): State {
    match s.procs.splitter
    case Ranging =>
      if DecodeOut in s.closed && s.flow.decoded == 0
      then Close(s.(procs := s.procs.(splitter := ClosingUdp)), TcpIn) else s
    case ClosingUdp => Close(s.(procs := s.procs.(splitter := ClosingDone)), UdpIn)
    case ClosingDone => Close(s.(procs := s.procs.(splitter := Finished)), SplitterDone)
    case _ => s
  }

  /** A goroutine returns when the context is cancelled or its input is closed and drained. */
  function Returning(s: State, a: Action): Procs {
    var p, f := s.procs, s.flow;
    match a
    case DecoderReturns =>
      if p.decoders > 0 && (s.cancelled || s.captureEnded) then p.(decoders := p.decoders - 1) else p
    case ReassemblerReturns =>
      if p.reassembler == Live && (s.cancelled || (TcpIn in s.closed && f.tcp == 0))
      then p.(reassembler := Returned) else p
    case TcpLoopReturns =>
      if p.tcpLoop == Live && (s.cancelled || (ReassemblyOut in s.closed && f.chunks == 0 && f.tcpEvents == 0))
      then p.(tcpLoop := Returned) else p
    case UdpLoopReturns =>
      if p.udpLoop == Live && (s.cancelled || (UdpIn in s.closed && f.udp == 0 && f.udpEvents == 0))
      then p.(udpLoop := Returned) else p
    case WriterReturns =>
      if p.writers > 0 && (s.cancelled || (KafkaIn in s.closed && f.events == 0))
      then p.(writers := p.writers - 1) else p
    case _ => p
  }

  /** Exactly when each goroutine may return: on cancellation, or when its input is closed and drained. */
  lemma ReturnsWhenDone(s: State)
    ensures s.procs.decoders > 0 ==>
      (Returning(s, DecoderReturns).decoders == s.procs.decoders - 1 <==> s.cancelled || s.captureEnded)
    ensures s.procs.reassembler == Live ==>
      (Returning(s, ReassemblerReturns).reassembler == Returned <==>
        s.cancelled || (TcpIn in s.closed && s.flow.tcp == 0))
    ensures s.procs.tcpLoop == Live ==>
      (Returning(s, TcpLoopReturns).tcpLoop == Returned <==>
        s.cancelled || (ReassemblyOut in s.closed && s.flow.chunks == 0 && s.flow.tcpEvents == 0))
    ensures s.procs.udpLoop == Live ==>
      (Returning(s, UdpLoopReturns).udpLoop == Returned <==>
        s.cancelled || (UdpIn in s.closed && s.flow.udp == 0 && s.flow.udpEvents == 0))
    ensures s.procs.writers > 0 ==>
      (Returning(s, WriterReturns).writers == s.procs.writers - 1 <==>
        s.cancelled || (KafkaIn in s.closed && s.flow.events == 0))
  {}

  /** The channel an action sends on, when its goroutine is where it can send and has something to send. */
  function SendsOn(s: State, a: Action): Option<Channel> {
    var p, f := s.procs, s.flow;
    match a
    case DecoderSends => if p.decoders > 0 then Some(DecodeOut) else None
    case SplitterSendsTcp => if p.splitter == Ranging && f.decoded > 0 then Some(TcpIn) else None
    case SplitterSendsUdp => if p.splitter == Ranging && f.decoded > 0 then Some(UdpIn) else None
    case ReassemblerSends => if p.reassembler == Live && f.fed then Some(ReassemblyOut) else None
    case FlushSends => if s.ctl.inStop == Some(Reassembler) && f.fed then Some(ReassemblyOut) else None
    case TcpLoopSends => if p.tcpLoop == Live && f.tcpEvents > 0 then Some(KafkaIn) else None
    case UdpLoopSends => if p.udpLoop == Live && f.udpEvents > 0 then Some(KafkaIn) else None
    case _ => None
  }

  /** What a send moves. */
  function AfterSend(s: State, a: Action): Flow {
    var f := s.flow;
    match a
    case DecoderSends => f.(decoded := f.decoded + 1)
    case SplitterSendsTcp => if f.decoded > 0 then f.(decoded := f.decoded - 1, tcp := f.tcp + 1) else f
    case SplitterSendsUdp => if f.decoded > 0 then f.(decoded := f.decoded - 1, udp := f.udp + 1) else f
    case ReassemblerSends | FlushSends => f.(chunks := f.chunks + 1)
    case TcpLoopSends => if f.tcpEvents > 0 then f.(tcpEvents := f.tcpEvents - 1, events := f.events + 1) else f
    case UdpLoopSends => if f.udpEvents > 0 then f.(udpEvents := f.udpEvents - 1, events := f.events + 1) else f
    case _ => f
  }

  /**
   What a receive moves. A dispatcher loop handles one message at a time; once the context is cancelled it
   may drop the events it has not sent.
   */
  function AfterReceive(s: State, a: Action): Flow {
    var p, f := s.procs, s.flow;
    match a
    case SplitterSkips => if p.splitter == Ranging && f.decoded > 0 then f.(decoded := f.decoded - 1) else f
    case ReassemblerReceives => if p.reassembler == Live && f.tcp > 0 then f.(tcp := f.tcp - 1, fed := true) else f
    case TcpLoopReceives(made) =>
      if p.tcpLoop == Live && f.chunks > 0 && f.tcpEvents == 0 then f.(chunks := f.chunks - 1, tcpEvents := made) else f
    case UdpLoopReceives(made) =>
      if p.udpLoop == Live && f.udp > 0 && f.udpEvents == 0 then f.(udp := f.udp - 1, udpEvents := made) else f
    case WriterReceives => if p.writers > 0 && f.events > 0 then f.(events := f.events - 1) else f
    case TcpLoopDrops => if p.tcpLoop == Live && s.cancelled then f.(tcpEvents := 0) else f
    case UdpLoopDrops => if p.udpLoop == Live && s.cancelled then f.(udpEvents := 0) else f
    case _ => f
  }

  /** The main goroutine, apart from starting and stopping stages. Only the metrics server's Start can fail. */
  function Decide(s: State, a: Action): Control {
    var c := s.ctl;
    match a
    case LaunchFails =>
      if c.main == Starting && c.todo != [] && c.todo[0] == Metrics then c.(main := Stopping, failed := true) else c
    case Started => if c.main == Starting && c.todo == [] then c.(main := Running) else c
    case Shutdown => if c.main == Running && s.cancelled then c.(main := Stopping) else c
    case StopStep => if c.main == Stopping && c.up == [] then c.(main := Ended) else c
    case _ => c
  }

  /**
   One step; an action that is not possible leaves the state as it is, and nothing follows a panic or the
   end of the main goroutine.
   */
  function Step(cfg: Config, s: State, a: Action): State {
    if s.panicked || s.ctl.main == Ended then s
    else if a == Launch && s.ctl.main == Starting && s.ctl.todo != [] then LaunchNext(cfg, s)
    else if a == StopStep && s.ctl.main == Stopping && s.ctl.up != [] then StopTop(s)
    else if a == SplitterAdvances then AdvanceSplitter(s)
    else if SendsOn(s, a).Some? then Send(s.(flow := AfterSend(s, a)), SendsOn(s, a).value)
    else s.(ctl := Decide(s, a), procs := Returning(s, a), flow := AfterReceive(s, a),
            cancelled := s.cancelled || a == Cancel, captureEnded := s.captureEnded || a == CaptureEnds)
  }

  function Run(cfg: Config, s: State, acts: seq<Action>): State
    decreases |acts|
  {
    if acts == [] then s else Run(cfg, Step(cfg, s, acts[0]), acts[1..])
  }

  lemma {:induction false} RunAppend(cfg: Config, s: State, first: seq<Action>, second: seq<Action>)
    ensures Run(cfg, s, first + second) == Run(cfg, Run(cfg, s, first), second)
    decreases |first|
  {
    hide Step;
    if first == [] {
      assert first + second == second;
    } else {
      RunAppend(cfg, Step(cfg, s, first[0]), first[1..], second);
      assert (first + second)[1..] == first[1..] + second;
    }
  }

  // ------------------------------------------------------------------ the invariant

  ghost predicate Distinct(order: seq<Stage>) {
    forall i, j :: 0 <= i < j < |order| ==> order[i] != order[j]
  }

  /** One stage is started before another, and so stopped after it. */
  ghost predicate Before(order: seq<Stage>, first: Stage, second: Stage) {
    exists i, j :: 0 <= i < j < |order| && order[i] == first && order[j] == second
  }

  /** How far the main goroutine is. */
  ghost predicate Progress(order: seq<Stage>, c: Control, closed: set<Channel>) {
    && (c.main == Starting || c.main == Running ==> c.up + c.todo == order && c.inStop == None && !c.failed)
    && (c.main == Starting || c.main == Running ==>
          DecodeOut !in closed && ReassemblyOut !in closed && KafkaIn !in closed && TcpIn !in closed)
    && (c.main == Running ==> c.todo == [])
    && (c.main == Ended ==> c.up == [])
    && c.up <= order
    && (c.inStop.Some? ==> c.main == Stopping && c.up != [] && Top(c) == c.inStop.value)
    && (c.inStop.Some? ==> c.inStop.value == Reassembler || c.inStop.value == Kafka)
  }

  /** A goroutine lives only while its stage is up. */
  ghost predicate Owned(up: seq<Stage>, inStop: Option<Stage>, p: Procs) {
    && (p.decoders > 0 ==> Decoder in up)
    && (p.reassembler == Live ==> Reassembler in up && inStop != Some(Reassembler))
    && (p.tcpLoop == Live || p.udpLoop == Live ==> Dispatcher in up)
    && (p.writers > 0 ==> Kafka in up)
    && (Splitter in up ==> p.splitter != Idle)
    && (p.splitter != Idle && p.splitter != Finished ==> Splitter in up)
  }

  /** A channel is closed only once everything that may send on it or close it is past that. */
  ghost predicate Retired(
    order: seq<Stage>, up: seq<Stage>, inStop: Option<Stage>, at: SplitterAt, closed: set<Channel>)
  {
    && (DecodeOut in closed ==> Decoder in order && Decoder !in up)
    && (ReassemblyOut in closed ==> Reassembler !in up)
    && (KafkaIn in closed ==> Kafka in order && (Kafka in up ==> inStop == Some(Kafka)))
    && (inStop == Some(Kafka) ==> KafkaIn in closed)
    && (TcpIn in closed <==> at == ClosingUdp || at == ClosingDone || at == Finished)
    && (UdpIn in closed <==> at == ClosingDone || at == Finished)
    && (SplitterDone in closed <==> at == Finished)
  }

  ghost predicate Inv(order: seq<Stage>, s: State) {
    && Distinct(order)
    && Progress(order, s.ctl, s.closed)
    && Owned(s.ctl.up, s.ctl.inStop, s.procs)
    && Retired(order, s.ctl.up, s.ctl.inStop, s.procs.splitter, s.closed)
    && (s.panicked ==> Before(order, Dispatcher, Kafka))
  }

  lemma LaunchKeepsInv(cfg: Config, order: seq<Stage>, s: State)
    requires Inv(order, s) && s.ctl.main == Starting && s.ctl.todo != []
    ensures Inv(order, LaunchNext(cfg, s))
  {
    hide Before;
    var stage, up := s.ctl.todo[0], s.ctl.up;
    assert up + s.ctl.todo == (up + [stage]) + s.ctl.todo[1..];
    assert stage !in up by {
      assert stage == order[|up|];
      assert forall i :: 0 <= i < |up| ==> up[i] == order[i];
    }
    hide Distinct;
    LaunchKeepsOwned(up, stage, s.ctl.inStop, cfg, s.procs);
    LaunchKeepsRetired(order, up, stage, s.ctl.inStop, cfg, s.procs, s.closed);
  }

  lemma LaunchKeepsOwned(up: seq<Stage>, stage: Stage, inStop: Option<Stage>, cfg: Config, p: Procs)
    requires Owned(up, inStop, p) && inStop == None
    ensures Owned(up + [stage], inStop, Launched(cfg, p, stage))
  {
    assert forall other :: other in up + [stage] <==> other in up || other == stage;
  }

  lemma LaunchKeepsRetired(
    order: seq<Stage>, up: seq<Stage>, stage: Stage, inStop: Option<Stage>, cfg: Config, p: Procs, closed: set<Channel>)
    requires Retired(order, up, inStop, p.splitter, closed) && inStop == None
    requires DecodeOut !in closed && ReassemblyOut !in closed && KafkaIn !in closed && TcpIn !in closed
    ensures Retired(order, up + [stage], inStop, Launched(cfg, p, stage).splitter, closed)
  {}

  /** Popping the last stage takes just that stage away. */
  lemma PoppedStack(order: seq<Stage>, up: seq<Stage>)
    requires Distinct(order) && up <= order && up != []
    ensures up[..|up| - 1] <= order
    ensures forall stage :: stage in up[..|up| - 1] <==> stage in up && stage != up[|up| - 1]
    ensures up[|up| - 1] in order && up[|up| - 1] in up
  {
    var last := |up| - 1;
    assert forall i :: 0 <= i <= last ==> up[i] == order[i];
    assert up == up[..last] + [up[last]];
  }

  lemma PopKeepsInv(order: seq<Stage>, s: State)
    requires Inv(order, s) && s.ctl.up != [] && s.ctl.main == Stopping
    requires match Top(s.ctl)
      case Decoder => s.procs.decoders == 0
      case Splitter => SplitterDone in s.closed
      case Reassembler => s.ctl.inStop.Some?
      case Kafka => s.ctl.inStop.Some? && s.procs.writers == 0
      case Dispatcher => s.procs.tcpLoop != Live && s.procs.udpLoop != Live
      case Metrics => true
    ensures Inv(order, Popped(s))
  {
    PoppedStack(order, s.ctl.up);
    hide Distinct, Before;
  }

  lemma CloseKeepsInv(order: seq<Stage>, s: State, channel: Channel)
    requires Inv(order, s)
    requires (channel == DecodeOut && Decoder in order && Decoder !in s.ctl.up)
          || (channel == ReassemblyOut && Reassembler !in s.ctl.up)
    requires channel !in s.closed && s.ctl.main == Stopping
    ensures Inv(order, Close(s, channel)) && Close(s, channel).panicked == s.panicked
  {
    hide Distinct, Before;
  }

  /** The first of the two steps of Stop, for the two stages that have one. */
  lemma BeginStopKeepsInv(order: seq<Stage>, s: State)
    requires Inv(order, s) && s.ctl.main == Stopping && s.ctl.up != [] && s.ctl.inStop == None
    requires Top(s.ctl) == Kafka || (Top(s.ctl) == Reassembler && s.procs.reassembler != Live)
    ensures Inv(order, StopTop(s)) && StopTop(s).panicked == s.panicked
  {
    PoppedStack(order, s.ctl.up);
    hide Distinct, Before;
  }

  lemma StopTopKeepsInv(order: seq<Stage>, s: State)
    requires Inv(order, s) && s.ctl.main == Stopping && s.ctl.up != []
    ensures Inv(order, StopTop(s)) && StopTop(s).panicked == s.panicked
  {
    PoppedStack(order, s.ctl.up);
    hide Distinct, Before;
    if StopTop(s) != s {
      assert s.procs.decoders == 0 && Top(s.ctl) == Decoder ==> DecodeOut !in s.closed;
      assert Top(s.ctl) == Reassembler ==> ReassemblyOut !in s.closed;
      if s.ctl.inStop == None && (Top(s.ctl) == Kafka || Top(s.ctl) == Reassembler) {
        BeginStopKeepsInv(order, s);
      } else {
        PopKeepsInv(order, s);
        hide Inv;
        if Top(s.ctl) == Decoder { CloseKeepsInv(order, Popped(s), DecodeOut); }
        if Top(s.ctl) == Reassembler { CloseKeepsInv(order, Popped(s), ReassemblyOut); }
      }
    }
  }

  /** A stage that is up under the last one was started before it. */
  lemma UnderTop(order: seq<Stage>, up: seq<Stage>, stage: Stage)
    requires up <= order && up != [] && stage in up && stage != up[|up| - 1]
    ensures Before(order, stage, up[|up| - 1])
  {
    var i :| 0 <= i < |up| && up[i] == stage;
    assert order[i] == up[i] && order[|up| - 1] == up[|up| - 1];
  }

  /** A stage that has been stopped, or is still to be started, comes after every stage that is up. */
  lemma NotUpComesAfter(order: seq<Stage>, up: seq<Stage>, first: Stage, second: Stage)
    requires up <= order && first in up && second in order && second !in up
    ensures Before(order, first, second)
  {
    var i :| 0 <= i < |up| && up[i] == first;
    var j :| 0 <= j < |order| && order[j] == second;
    assert forall k :: 0 <= k < |up| ==> up[k] == order[k];
  }

  /** Whatever is up once the Kafka input is closed was started before Kafka. */
  lemma UpBeforeClosedKafka(order: seq<Stage>, s: State, stage: Stage)
    requires Inv(order, s) && KafkaIn in s.closed && stage in s.ctl.up && stage != Kafka
    ensures Before(order, stage, Kafka)
  {
    hide Before, Distinct, Owned;
    if Kafka in s.ctl.up { UnderTop(order, s.ctl.up, stage); } else { NotUpComesAfter(order, s.ctl.up, stage, Kafka); }
  }

  /** Every send but the dispatcher's is on an open channel. */
  lemma SendKeepsInv(order: seq<Stage>, s: State, a: Action)
    requires Inv(order, s) && SendsOn(s, a).Some?
    ensures Inv(order, Send(s.(flow := AfterSend(s, a)), SendsOn(s, a).value))
    ensures SendsOn(s, a).value in s.closed ==>
      Before(order, Dispatcher, Kafka) && (a == TcpLoopSends || a == UdpLoopSends)
  {
    hide Distinct, Before;
    if SendsOn(s, a) == Some(KafkaIn) && KafkaIn in s.closed { UpBeforeClosedKafka(order, s, Dispatcher); }
  }

  lemma AdvanceKeepsInv(order: seq<Stage>, s: State)
    requires Inv(order, s)
    ensures Inv(order, AdvanceSplitter(s)) && AdvanceSplitter(s).panicked == s.panicked
  {
    hide Distinct, Before;
    match s.procs.splitter
    case Ranging => if DecodeOut in s.closed { assert TcpIn !in s.closed; }
    case ClosingUdp => assert UdpIn !in s.closed && TcpIn in s.closed;
    case ClosingDone => assert SplitterDone !in s.closed && UdpIn in s.closed && TcpIn in s.closed;
    case _ =>
  }

  lemma StepKeepsInv(cfg: Config, order: seq<Stage>, s: State, a: Action)
    requires Inv(order, s)
    ensures Inv(order, Step(cfg, s, a))
  {
    hide Distinct, Before, StopTop, AdvanceSplitter, SendsOn, Send, LaunchNext, AfterSend, AfterReceive;
    if s.panicked || s.ctl.main == Ended {
    } else if a == Launch && s.ctl.main == Starting && s.ctl.todo != [] { LaunchKeepsInv(cfg, order, s);
    } else if a == StopStep && s.ctl.main == Stopping && s.ctl.up != [] { StopTopKeepsInv(order, s);
    } else if a == SplitterAdvances { AdvanceKeepsInv(order, s);
    } else if SendsOn(s, a).Some? { SendKeepsInv(order, s, a); }
  }

  lemma {:induction false} RunKeepsInv(cfg: Config, order: seq<Stage>, s: State, acts: seq<Action>)
    requires Inv(order, s)
    ensures Inv(order, Run(cfg, s, acts))
    decreases |acts|
  {
    hide Inv, Step;
    if acts != [] {
      StepKeepsInv(cfg, order, s, acts[0]);
      RunKeepsInv(cfg, order, Step(cfg, s, acts[0]), acts[1..]);
    }
  }

  lemma InitialInv(order: seq<Stage>)
    requires Distinct(order)
    ensures Inv(order, Initial(order))
  {
    assert [] + order == order;
  }

  /** With Kafka started before the dispatcher: no panic, and every channel open while anything can send on it. */
  lemma ClosedAfterItsSenders(cfg: Config, order: seq<Stage>, acts: seq<Action>)
    requires Distinct(order) && !Before(order, Dispatcher, Kafka)
    ensures var s := Run(cfg, Initial(order), acts);
      && !s.panicked
      && (forall a: Action :: SendsOn(s, a).Some? ==> SendsOn(s, a).value !in s.closed)
      && (KafkaIn in s.closed ==> s.procs.tcpLoop != Live && s.procs.udpLoop != Live)
      && (ReassemblyOut in s.closed ==> s.procs.reassembler != Live)
      && (DecodeOut in s.closed ==> s.procs.decoders == 0)
      && (TcpIn in s.closed || UdpIn in s.closed ==> s.procs.splitter != Ranging && DecodeOut in s.closed)
  {
    var s := Run(cfg, Initial(order), acts);
    InitialInv(order);
    RunKeepsInv(cfg, order, Initial(order), acts);
    SplitterEndsAfterDecoder(cfg, Initial(order), acts);
    hide Run, Distinct, Before;
    forall a: Action | SendsOn(s, a).Some? ensures SendsOn(s, a).value !in s.closed { SendKeepsInv(order, s, a); }
    if KafkaIn in s.closed && Dispatcher in s.ctl.up { UpBeforeClosedKafka(order, s, Dispatcher); }
  }

  ghost predicate SplitterAfterDecoder(s: State) {
    (s.procs.splitter == Idle || s.procs.splitter == Ranging) || DecodeOut in s.closed
  }

  lemma {:induction false} SplitterEndsAfterDecoder(cfg: Config, s: State, acts: seq<Action>)
    requires SplitterAfterDecoder(s)
    ensures SplitterAfterDecoder(Run(cfg, s, acts))
    decreases |acts|
  {
    if acts != [] {
      assert SplitterAfterDecoder(Step(cfg, s, acts[0])) by { hide Run; }
      hide Step;
      SplitterEndsAfterDecoder(cfg, Step(cfg, s, acts[0]), acts[1..]);
    }
  }

  // ------------------------------------------------------------------ reaching a state

  ghost predicate Reaches(cfg: Config, s: State, t: State) {
    exists acts :: Run(cfg, s, acts) == t
  }

  lemma ReachesStep(cfg: Config, s: State, a: Action)
    ensures Reaches(cfg, s, Step(cfg, s, a))
  {
    hide Step;
    assert [a][1..] == [];
    assert Run(cfg, Step(cfg, s, a), []) == Step(cfg, s, a);
    assert Run(cfg, s, [a]) == Step(cfg, s, a);
  }

  lemma ReachesOnward(cfg: Config, s: State, t: State, u: State)
    requires Reaches(cfg, s, t) && Reaches(cfg, t, u)
    ensures Reaches(cfg, s, u)
  {
    hide Step;
    var first :| Run(cfg, s, first) == t;
    var second :| Run(cfg, t, second) == u;
    RunAppend(cfg, s, first, second);
  }

  lemma ReachesItself(cfg: Config, s: State)
    ensures Reaches(cfg, s, s)
  {
    assert Run(cfg, s, []) == s;
  }

  lemma ReachesInv(cfg: Config, order: seq<Stage>, s: State, t: State)
    requires Inv(order, s) && Reaches(cfg, s, t)
    ensures Inv(order, t)
  {
    hide Inv, Step;
    var acts :| Run(cfg, s, acts) == t;
    RunKeepsInv(cfg, order, s, acts);
  }

  // ------------------------------------------------------------------ which orders can shut down

  /** The splitter's input is not closed by a stage stopped before the splitter. */
  ghost predicate SplitterWaits(order: seq<Stage>) {
    Splitter in order && !Before(order, Splitter, Decoder)
  }

  ghost predicate Waiting(s: State) {
    && (s.procs.splitter == Idle || s.procs.splitter == Ranging)
    && (s.procs.splitter == Ranging <==> Splitter in s.ctl.up)
    && (!s.ctl.failed && (s.ctl.main == Stopping || s.ctl.main == Ended) ==> Splitter in s.ctl.up)
  }

  lemma InputStaysOpen(order: seq<Stage>, s: State)
    requires Inv(order, s) && SplitterWaits(order) && Splitter in s.ctl.up
    ensures DecodeOut !in s.closed
  {
    hide Before, Distinct;
    if DecodeOut in s.closed { NotUpComesAfter(order, s.ctl.up, Splitter, Decoder); }
  }

  lemma LaunchKeepsWaiting(cfg: Config, s: State)
    requires s.ctl.main == Starting && s.ctl.todo != [] && s.ctl.todo[0] !in s.ctl.up && Waiting(s)
    ensures Waiting(LaunchNext(cfg, s))
  {
    var stage, up := s.ctl.todo[0], s.ctl.up;
    assert forall other :: other in up + [stage] <==> other in up || other == stage;
  }

  lemma StopKeepsWaiting(order: seq<Stage>, s: State)
    requires Inv(order, s) && s.ctl.main == Stopping && s.ctl.up != [] && Waiting(s)
    ensures Waiting(StopTop(s))
  {
    PoppedStack(order, s.ctl.up);
    hide Distinct, Before, Progress, Owned;
    assert Top(s.ctl) == Splitter ==> StopTop(s) == s;
  }

  lemma AdvanceKeepsWaiting(s: State)
    requires Waiting(s) && (s.procs.splitter == Ranging ==> DecodeOut !in s.closed)
    ensures AdvanceSplitter(s) == s
  {}

  lemma DecideKeepsWaiting(order: seq<Stage>, s: State, a: Action)
    requires Progress(order, s.ctl, s.closed) && Splitter in order && Waiting(s)
    ensures var c := Decide(s, a);
      c.up == s.ctl.up && (!c.failed && (c.main == Stopping || c.main == Ended) ==> Splitter in c.up)
  {
    assert s.ctl.main == Running ==> s.ctl.up == order;
  }

  lemma ReturningKeepsSplitter(s: State, a: Action)
    ensures Returning(s, a).splitter == s.procs.splitter
  {}

  lemma StepKeepsWaiting(cfg: Config, order: seq<Stage>, s: State, a: Action)
    requires Inv(order, s) && SplitterWaits(order) && Waiting(s)
    ensures Waiting(Step(cfg, s, a))
  {
    if Splitter in s.ctl.up { InputStaysOpen(order, s); }
    hide Before, StopTop, LaunchNext, Owned, Retired, AfterSend, AfterReceive;
    if s.panicked || s.ctl.main == Ended {
    } else if a == Launch && s.ctl.main == Starting && s.ctl.todo != [] {
      assert s.ctl.todo[0] == order[|s.ctl.up|];
      assert forall i :: 0 <= i < |s.ctl.up| ==> s.ctl.up[i] == order[i];
      LaunchKeepsWaiting(cfg, s);
    } else if a == StopStep && s.ctl.main == Stopping && s.ctl.up != [] {
      StopKeepsWaiting(order, s);
    } else if a == SplitterAdvances {
      AdvanceKeepsWaiting(s);
    } else {
      DecideKeepsWaiting(order, s, a);
      ReturningKeepsSplitter(s, a);
      hide Distinct, AdvanceSplitter, Decide, Returning, SendsOn, SplitterWaits, Progress;
    }
  }

  lemma {:induction false} RunKeepsWaiting(cfg: Config, order: seq<Stage>, s: State, acts: seq<Action>)
    requires Inv(order, s) && SplitterWaits(order) && Waiting(s)
    ensures Inv(order, Run(cfg, s, acts)) && Waiting(Run(cfg, s, acts))
    decreases |acts|
  {
    hide Inv, Waiting, Step, SplitterWaits;
    if acts != [] {
      StepKeepsInv(cfg, order, s, acts[0]);
      StepKeepsWaiting(cfg, order, s, acts[0]);
      RunKeepsWaiting(cfg, order, Step(cfg, s, acts[0]), acts[1..]);
    }
  }

  /**
   If the decoder is not stopped before the splitter, then in every run the main goroutine ends only when
   the splitter was never started: the started splitter keeps waiting for its input to be closed.
   */
  lemma NeverReturns(cfg: Config, order: seq<Stage>, acts: seq<Action>)
    requires Distinct(order) && SplitterWaits(order)
    ensures var s := Run(cfg, Initial(order), acts);
      && (s.procs.splitter != Idle ==> s.procs.splitter == Ranging && DecodeOut !in s.closed)
      && (s.ctl.main == Ended ==> s.ctl.failed && s.procs.splitter == Idle)
  {
    InitialInv(order);
    RunKeepsWaiting(cfg, order, Initial(order), acts);
    hide Run;
    var s := Run(cfg, Initial(order), acts);
    if s.procs.splitter != Idle { InputStaysOpen(order, s); }
  }

  // ------------------------------------------------------------------ shutting down

  /** The first n stages started, and nothing sent yet. */
  lemma {:induction false} LaunchMany(cfg: Config, order: seq<Stage>, n: nat) returns (s: State)
    requires n <= |order|
    ensures Reaches(cfg, Initial(order), s) && Calm(s)
    ensures s.ctl == Control(Starting, order[n..], order[..n], None, false)
    ensures Dispatcher in order[..n] ==> s.procs.udpLoop == Live && s.procs.tcpLoop == Live
    ensures Reassembler in order[..n] ==> s.procs.reassembler == Live
    ensures Splitter in order[..n] ==> s.procs.splitter == Ranging
    ensures Decoder in order[..n] ==> s.procs.decoders == cfg.decodeWorkers
  {
    if n == 0 {
      s := Initial(order);
      ReachesItself(cfg, s);
      assert order[0..] == order;
    } else {
      var before := LaunchMany(cfg, order, n - 1);
      s := Step(cfg, before, Launch);
      ReachesStep(cfg, before, Launch);
      ReachesOnward(cfg, Initial(order), before, s);
      assert order[..n] == order[..n - 1] + [order[n - 1]];
      assert order[n - 1..][0] == order[n - 1] && order[n - 1..][1..] == order[n..];
    }
  }

  /** Nothing was sent, closed or cancelled. */
  ghost predicate Calm(s: State) {
    s.closed == {} && s.flow == Flow(0, 0, 0, false, 0, 0, 0, 0) && !s.panicked
  }

  /** All stages up and running. */
  lemma AllRunning(cfg: Config, order: seq<Stage>) returns (s: State)
    requires Distinct(order)
    ensures Reaches(cfg, Initial(order), s) && Inv(order, s) && Calm(s)
    ensures s.ctl == Control(Running, [], order, None, false)
    ensures Dispatcher in order ==> s.procs.udpLoop == Live && s.procs.tcpLoop == Live
    ensures Reassembler in order ==> s.procs.reassembler == Live
    ensures Splitter in order ==> s.procs.splitter == Ranging
    ensures Decoder in order ==> s.procs.decoders == cfg.decodeWorkers
  {
    var a := LaunchMany(cfg, order, |order|);
    assert order[..|order|] == order && order[|order|..] == [];
    s := Step(cfg, a, Started);
    ReachesStep(cfg, a, Started);
    hide Inv;
    assert s == a.(ctl := a.ctl.(main := Running));
    hide Step, Initial;
    ReachesOnward(cfg, Initial(order), a, s);
    InitialInv(order);
    ReachesInv(cfg, order, Initial(order), s);
  }

  /** A signal, and the shutdown has begun. */
  lemma Signalled(cfg: Config, order: seq<Stage>, s: State) returns (t: State)
    requires Inv(order, s) && s.ctl == Control(Running, [], order, None, false) && !s.panicked
    ensures Reaches(cfg, s, t) && Inv(order, t) && Between(t)
    ensures t.ctl.up == order && t.closed == s.closed && t.flow == s.flow && t.procs == s.procs
  {
    var u := Step(cfg, s, Cancel);
    t := Step(cfg, u, Shutdown);
    ReachesStep(cfg, s, Cancel);
    ReachesStep(cfg, u, Shutdown);
    assert t == s.(ctl := s.ctl.(main := Stopping), cancelled := true);
    hide Step, Inv;
    ReachesOnward(cfg, s, u, t);
    ReachesInv(cfg, order, s, t);
  }

  lemma {:induction false} DecodersReturn(cfg: Config, s: State) returns (t: State)
    requires s.cancelled && !s.panicked && s.ctl.main == Stopping
    ensures Reaches(cfg, s, t) && t == s.(procs := s.procs.(decoders := 0))
    decreases s.procs.decoders
  {
    if s.procs.decoders == 0 {
      t := s;
      ReachesItself(cfg, s);
    } else {
      var u := Step(cfg, s, DecoderReturns);
      ReachesStep(cfg, s, DecoderReturns);
      assert u == s.(procs := s.procs.(decoders := s.procs.decoders - 1));
      hide Step;
      t := DecodersReturn(cfg, u);
      ReachesOnward(cfg, s, u, t);
    }
  }

  lemma {:induction false} WritersReturn(cfg: Config, s: State) returns (t: State)
    requires s.cancelled && !s.panicked && s.ctl.main == Stopping
    ensures Reaches(cfg, s, t) && t == s.(procs := s.procs.(writers := 0))
    decreases s.procs.writers
  {
    if s.procs.writers == 0 {
      t := s;
      ReachesItself(cfg, s);
    } else {
      var u := Step(cfg, s, WriterReturns);
      ReachesStep(cfg, s, WriterReturns);
      assert u == s.(procs := s.procs.(writers := s.procs.writers - 1));
      hide Step;
      t := WritersReturn(cfg, u);
      ReachesOnward(cfg, s, u, t);
    }
  }

  /** A shutdown between two stages. */
  ghost predicate Between(s: State) {
    s.ctl.main == Stopping && s.ctl.inStop == None && s.cancelled && !s.panicked && !s.ctl.failed
  }

  /** The last stage has been stopped, and what was closed before still is. */
  ghost predicate OneDown(s: State, t: State) {
    && s.ctl.up != [] && Between(t) && t.ctl.up == s.ctl.up[..|s.ctl.up| - 1] && s.closed <= t.closed
    && (Top(s.ctl) == Decoder ==> DecodeOut in t.closed)
    && (Top(s.ctl) == Kafka ==> KafkaIn in t.closed)
    && (Top(s.ctl) == Reassembler ==> ReassemblyOut in t.closed)
    && t.flow == s.flow
    && (Top(s.ctl) != Dispatcher ==> t.procs.udpLoop == s.procs.udpLoop)
  }

  lemma StopDecoder(cfg: Config, order: seq<Stage>, s: State) returns (t: State)
    requires Inv(order, s) && Between(s) && s.ctl.up != [] && Top(s.ctl) == Decoder
    ensures Reaches(cfg, s, t) && OneDown(s, t)
  {
    hide Distinct, Before, Owned;
    assert Decoder in s.ctl.up;
    var u := DecodersReturn(cfg, s);
    t := Step(cfg, u, StopStep);
    ReachesStep(cfg, u, StopStep);
    ReachesOnward(cfg, s, u, t);
  }

  lemma StopKafka(cfg: Config, order: seq<Stage>, s: State) returns (t: State)
    requires Inv(order, s) && Between(s) && s.ctl.up != [] && Top(s.ctl) == Kafka
    ensures Reaches(cfg, s, t) && OneDown(s, t)
  {
    hide Distinct, Before, Owned;
    assert Kafka in s.ctl.up && KafkaIn !in s.closed;
    hide Inv;
    var u := Step(cfg, s, StopStep);
    assert u == s.(ctl := s.ctl.(inStop := Some(Kafka)), closed := s.closed + {KafkaIn});
    ReachesStep(cfg, s, StopStep);
    var v := WritersReturn(cfg, u);
    t := Step(cfg, v, StopStep);
    ReachesStep(cfg, v, StopStep);
    assert OneDown(s, t);
    hide Step;
    ReachesOnward(cfg, s, u, v);
    ReachesOnward(cfg, s, v, t);
  }

  lemma StopDispatcher(cfg: Config, s: State) returns (t: State)
    requires Between(s) && s.ctl.up != [] && Top(s.ctl) == Dispatcher
    ensures Reaches(cfg, s, t) && OneDown(s, t)
  {
    var u := Step(cfg, s, TcpLoopReturns);
    assert u.ctl == s.ctl && u.procs.tcpLoop != Live && u.closed == s.closed && Between(u);
    ReachesStep(cfg, s, TcpLoopReturns);
    var v := Step(cfg, u, UdpLoopReturns);
    assert v.ctl == s.ctl && v.procs.tcpLoop != Live && v.procs.udpLoop != Live && v.closed == s.closed && Between(v);
    ReachesStep(cfg, u, UdpLoopReturns);
    t := Step(cfg, v, StopStep);
    ReachesStep(cfg, v, StopStep);
    hide Step;
    ReachesOnward(cfg, s, u, v);
    ReachesOnward(cfg, s, v, t);
  }

  lemma StopReassembler(cfg: Config, order: seq<Stage>, s: State) returns (t: State)
    requires Inv(order, s) && Between(s) && s.ctl.up != [] && Top(s.ctl) == Reassembler
    ensures Reaches(cfg, s, t) && OneDown(s, t)
  {
    assert ReassemblyOut !in s.closed by {
      hide Distinct, Before, Owned;
      assert Reassembler in s.ctl.up;
    }
    hide Inv;
    var u := Step(cfg, s, ReassemblerReturns);
    ReachesStep(cfg, s, ReassemblerReturns);
    assert Between(u) && u.ctl == s.ctl && u.procs.reassembler != Live && u.closed == s.closed;
    t := FlushAndClose(cfg, u);
    hide Step;
    ReachesOnward(cfg, s, u, t);
  }

  lemma FlushAndClose(cfg: Config, s: State) returns (t: State)
    requires Between(s) && s.ctl.up != [] && Top(s.ctl) == Reassembler
    requires ReassemblyOut !in s.closed && s.procs.reassembler != Live
    ensures Reaches(cfg, s, t) && OneDown(s, t)
  {
    var v := Step(cfg, s, StopStep);
    assert v == s.(ctl := s.ctl.(inStop := Some(Reassembler)));
    ReachesStep(cfg, s, StopStep);
    t := Step(cfg, v, StopStep);
    ReachesStep(cfg, v, StopStep);
    assert OneDown(s, t);
    hide Step;
    ReachesOnward(cfg, s, v, t);
  }

  /** With its input closed the splitter finishes. */
  lemma SplitterFinishes(cfg: Config, order: seq<Stage>, s: State) returns (t: State)
    requires Inv(order, s) && !s.panicked && DecodeOut in s.closed && s.procs.splitter != Idle
    requires s.flow.decoded == 0 && s.ctl.main == Stopping
    ensures Reaches(cfg, s, t) && t.ctl == s.ctl && t.cancelled == s.cancelled && !t.panicked
    ensures t.flow == s.flow && t.procs.udpLoop == s.procs.udpLoop
    ensures s.closed <= t.closed && SplitterDone in t.closed
    decreases match s.procs.splitter
      case Idle => 0 case Ranging => 3 case ClosingUdp => 2 case ClosingDone => 1 case Finished => 0
  {
    if s.procs.splitter == Finished {
      t := s;
      ReachesItself(cfg, s);
    } else {
      var u := Step(cfg, s, SplitterAdvances);
      StepKeepsInv(cfg, order, s, SplitterAdvances);
      AdvanceKeepsInv(order, s);
      ReachesStep(cfg, s, SplitterAdvances);
      hide Inv;
      assert s.closed <= u.closed && u.ctl == s.ctl && u.cancelled == s.cancelled && u.flow == s.flow;
      t := SplitterFinishes(cfg, order, u);
      ReachesOnward(cfg, s, u, t);
    }
  }

  lemma StopSplitter(cfg: Config, order: seq<Stage>, s: State) returns (t: State)
    requires Inv(order, s) && Between(s) && s.ctl.up != [] && Top(s.ctl) == Splitter
    requires DecodeOut in s.closed && s.flow.decoded == 0
    ensures Reaches(cfg, s, t) && OneDown(s, t)
  {
    assert Splitter in s.ctl.up;
    var u := SplitterFinishes(cfg, order, s);
    hide Inv;
    t := Step(cfg, u, StopStep);
    ReachesStep(cfg, u, StopStep);
    ReachesOnward(cfg, s, u, t);
  }

  lemma StopLast(cfg: Config, order: seq<Stage>, s: State) returns (t: State)
    requires Inv(order, s) && Between(s) && s.ctl.up != []
    requires Top(s.ctl) == Splitter ==> DecodeOut in s.closed && s.flow.decoded == 0
    ensures Reaches(cfg, s, t) && OneDown(s, t) && Inv(order, t)
  {
    hide Inv, OneDown, Between;
    match Top(s.ctl) {
      case Decoder => t := StopDecoder(cfg, order, s);
      case Splitter => t := StopSplitter(cfg, order, s);
      case Reassembler => t := StopReassembler(cfg, order, s);
      case Kafka => t := StopKafka(cfg, order, s);
      case Dispatcher => t := StopDispatcher(cfg, s);
      case Metrics => t := StopMetrics(cfg, s);
    }
    ReachesInv(cfg, order, s, t);
  }

  lemma StopMetrics(cfg: Config, s: State) returns (t: State)
    requires Between(s) && s.ctl.up != [] && Top(s.ctl) == Metrics
    ensures Reaches(cfg, s, t) && OneDown(s, t)
  {
    t := Step(cfg, s, StopStep);
    ReachesStep(cfg, s, StopStep);
  }

  lemma ShutdownBegins(cfg: Config, order: seq<Stage>) returns (s: State)
    requires Distinct(order)
    ensures Reaches(cfg, Initial(order), s) && Inv(order, s) && Between(s)
    ensures s.ctl.up == order && s.closed == {} && s.flow.decoded == 0
  {
    var a := AllRunning(cfg, order);
    s := Signalled(cfg, order, a);
    ReachesOnward(cfg, Initial(order), a, s);
  }

  /** When the decoder is stopped before the splitter, a shutdown can be brought to its end. */
  lemma {:induction false} StopAll(cfg: Config, order: seq<Stage>, s: State) returns (t: State)
    requires Inv(order, s) && Between(s) && !SplitterWaits(order) && s.flow.decoded == 0
    requires Decoder in order && Decoder !in s.ctl.up ==> DecodeOut in s.closed
    ensures Reaches(cfg, s, t) && t.ctl.main == Ended && !t.ctl.failed
    decreases |s.ctl.up|
  {
    if s.ctl.up == [] {
      t := Step(cfg, s, StopStep);
      ReachesStep(cfg, s, StopStep);
    } else {
      PoppedStack(order, s.ctl.up);
      if Top(s.ctl) == Splitter { DecoderIsDown(order, s.ctl.up); }
      var u := StopLast(cfg, order, s);
      hide Inv, Step, SplitterWaits;
      t := StopAll(cfg, order, u);
      ReachesOnward(cfg, s, u, t);
    }
  }

  lemma DecoderIsDown(order: seq<Stage>, up: seq<Stage>)
    requires Distinct(order) && up <= order && up != [] && up[|up| - 1] == Splitter && !SplitterWaits(order)
    ensures Decoder in order && Decoder !in up
  {
    assert order[|up| - 1] == Splitter;
    var i, j :| 0 <= i < j < |order| && order[i] == Splitter && order[j] == Decoder;
    assert i == |up| - 1;
    assert forall k :: 0 <= k < |up| ==> up[k] == order[k];
  }

  /**
   A shutdown after a complete start can return if and only if there is no splitter, or the splitter is
   started before the decoder and so stopped after it.
   */
  lemma ReturnsExactly(cfg: Config, order: seq<Stage>)
    requires Distinct(order)
    ensures (exists s :: Reaches(cfg, Initial(order), s) && s.ctl.main == Ended && !s.ctl.failed)
      <==> !SplitterWaits(order)
  {
    if SplitterWaits(order) {
      forall s | Reaches(cfg, Initial(order), s) ensures s.ctl.main == Ended ==> s.ctl.failed {
        var acts :| Run(cfg, Initial(order), acts) == s;
        NeverReturns(cfg, order, acts);
      }
    } else {
      var s := ShutdownBegins(cfg, order);
      var t := StopAll(cfg, order, s);
      ReachesOnward(cfg, Initial(order), s, t);
    }
  }

  // ------------------------------------------------------------------ which orders are safe

  /**
   The dispatcher outlives the Kafka input, packets can reach it, and a shutdown gets as far as Kafka: it
   does not when it has to stop, before Kafka, a splitter that waits for the decoder.
   */
  ghost predicate Danger(order: seq<Stage>) {
    && Before(order, Dispatcher, Kafka) && Decoder in order && Splitter in order
    && !(Before(order, Kafka, Splitter) && Before(order, Decoder, Splitter))
  }

  lemma BeforeOneWay(order: seq<Stage>, first: Stage, second: Stage)
    requires Distinct(order) && Before(order, first, second)
    ensures !Before(order, second, first)
  {
    var i, j :| 0 <= i < j < |order| && order[i] == first && order[j] == second;
    forall k, l | 0 <= k < l < |order| ensures !(order[k] == second && order[l] == first) {
      assert order[k] == second ==> k == j;
    }
  }

  /** What is under way has come through the decoder, and, past its output, through the splitter. */
  ghost predicate Sourced(order: seq<Stage>, s: State) {
    var f := s.flow;
    && (f.decoded > 0 ==> Decoder in order)
    && (f.tcp > 0 || f.udp > 0 || f.fed || f.chunks > 0 || f.tcpEvents > 0 || f.udpEvents > 0 ==>
          Decoder in order && s.procs.splitter != Idle)
    && (s.procs.splitter != Idle ==> Splitter in order)
  }

  lemma LaunchKeepsSourced(cfg: Config, order: seq<Stage>, s: State)
    requires Inv(order, s) && Sourced(order, s) && s.ctl.main == Starting && s.ctl.todo != []
    ensures Sourced(order, LaunchNext(cfg, s))
  {
    assert s.ctl.todo[0] == order[|s.ctl.up|];
  }

  lemma AdvanceKeepsSourced(order: seq<Stage>, s: State)
    requires Sourced(order, s)
    ensures Sourced(order, AdvanceSplitter(s))
  {}

  lemma StopKeepsSourced(order: seq<Stage>, s: State)
    requires Sourced(order, s) && s.ctl.up != []
    ensures Sourced(order, StopTop(s))
  {}

  lemma SendKeepsSourced(order: seq<Stage>, s: State, a: Action)
    requires Sourced(order, s) && SendsOn(s, a).Some? && (s.procs.decoders > 0 ==> Decoder in order)
    ensures Sourced(order, s.(flow := AfterSend(s, a)))
  {}

  lemma ReceiveKeepsSourced(order: seq<Stage>, s: State, a: Action)
    requires Sourced(order, s)
    ensures Sourced(order, s.(flow := AfterReceive(s, a)))
  {}

  lemma SourcedByFlow(order: seq<Stage>, s: State, t: State)
    requires Sourced(order, s) && t.flow == s.flow && t.procs.splitter == s.procs.splitter
    ensures Sourced(order, t)
  {}

  lemma StepKeepsSourced(cfg: Config, order: seq<Stage>, s: State, a: Action)
    requires Inv(order, s) && Sourced(order, s)
    ensures Sourced(order, Step(cfg, s, a))
  {
    hide Distinct, Before, StopTop, AdvanceSplitter, LaunchNext, Retired, Decide, AfterSend, AfterReceive, Sourced;
    if s.panicked || s.ctl.main == Ended {
    } else if a == Launch && s.ctl.main == Starting && s.ctl.todo != [] { LaunchKeepsSourced(cfg, order, s);
    } else if a == StopStep && s.ctl.main == Stopping && s.ctl.up != [] { StopKeepsSourced(order, s);
    } else if a == SplitterAdvances { AdvanceKeepsSourced(order, s);
    } else if SendsOn(s, a).Some? {
      assert s.procs.decoders > 0 ==> Decoder in order;
      SendKeepsSourced(order, s, a);
      hide SendsOn;
      SourcedByFlow(order, s.(flow := AfterSend(s, a)), Step(cfg, s, a));
    } else {
      ReceiveKeepsSourced(order, s, a);
      ReturningKeepsSplitter(s, a);
      hide Returning, SendsOn;
      SourcedByFlow(order, s.(flow := AfterReceive(s, a)), Step(cfg, s, a));
    }
  }

  /** What stands in the way of a panic: everything but the danger. */
  ghost predicate Guarded(order: seq<Stage>, s: State) {
    Inv(order, s) && Sourced(order, s) && (SplitterWaits(order) ==> Waiting(s)) && (s.panicked ==> Danger(order))
  }

  lemma ClosedKafkaInDanger(order: seq<Stage>, s: State)
    requires Inv(order, s) && Sourced(order, s) && (SplitterWaits(order) ==> Waiting(s))
    requires KafkaIn in s.closed && Before(order, Dispatcher, Kafka)
    requires s.flow.tcpEvents > 0 || s.flow.udpEvents > 0
    ensures Danger(order)
  {
    hide Before, Progress, Owned, Retired;
    if SplitterWaits(order) {
      UpBeforeClosedKafka(order, s, Splitter);
      BeforeOneWay(order, Splitter, Kafka);
    } else {
      BeforeOneWay(order, Splitter, Decoder);
    }
  }

  lemma StepPanicsInDanger(cfg: Config, order: seq<Stage>, s: State, a: Action)
    requires Guarded(order, s)
    ensures Step(cfg, s, a).panicked ==> Danger(order)
  {
    hide Inv, Sourced, SplitterWaits, Waiting, Danger;
    if s.panicked || s.ctl.main == Ended {
    } else if a == StopStep && s.ctl.main == Stopping && s.ctl.up != [] { StopTopKeepsInv(order, s);
    } else if a == SplitterAdvances { AdvanceKeepsInv(order, s);
    } else if SendsOn(s, a).Some? {
      SendKeepsInv(order, s, a);
      if SendsOn(s, a).value in s.closed { ClosedKafkaInDanger(order, s); }
    }
  }

  lemma {:induction false} RunKeepsGuarded(cfg: Config, order: seq<Stage>, s: State, acts: seq<Action>)
    requires Guarded(order, s)
    ensures Guarded(order, Run(cfg, s, acts))
    decreases |acts|
  {
    hide Inv, Step, Sourced, SplitterWaits, Waiting, Danger;
    if acts != [] {
      var a := acts[0];
      StepKeepsInv(cfg, order, s, a);
      StepKeepsSourced(cfg, order, s, a);
      if SplitterWaits(order) { StepKeepsWaiting(cfg, order, s, a); }
      StepPanicsInDanger(cfg, order, s, a);
      RunKeepsGuarded(cfg, order, Step(cfg, s, a), acts[1..]);
    }
  }

  /** With everything running, a UDP packet comes as far as the dispatcher, which has an event of it to send. */
  lemma PacketArrives(cfg: Config, s: State) returns (t: State)
    requires s.ctl.main == Running && Calm(s) && s.procs.decoders > 0
    requires s.procs.splitter == Ranging && s.procs.udpLoop == Live
    ensures Reaches(cfg, s, t) && t == s.(flow := Flow(0, 0, 0, false, 0, 0, 1, 0))
  {
    var u := Step(cfg, s, DecoderSends);
    assert u == s.(flow := s.flow.(decoded := 1));
    ReachesStep(cfg, s, DecoderSends);
    var v := Step(cfg, u, SplitterSendsUdp);
    assert v == s.(flow := s.flow.(udp := 1));
    ReachesStep(cfg, u, SplitterSendsUdp);
    t := Step(cfg, v, UdpLoopReceives(1));
    assert t == s.(flow := s.flow.(udpEvents := 1));
    ReachesStep(cfg, v, UdpLoopReceives(1));
    hide Step;
    ReachesOnward(cfg, s, u, v);
    ReachesOnward(cfg, s, v, t);
  }

  /** A TCP packet too can come all the way: through decoder, splitter, reassembler and dispatcher to Kafka. */
  lemma TcpPacketArrives(cfg: Config, order: seq<Stage>) returns (s: State)
    requires Distinct(order) && cfg.decodeWorkers > 0
    requires Decoder in order && Splitter in order && Reassembler in order && Dispatcher in order
    ensures Reaches(cfg, Initial(order), s) && s.ctl.main == Running && !s.panicked
    ensures s.flow == Flow(0, 0, 0, true, 0, 0, 0, 1)
  {
    var a := AllRunning(cfg, order);
    var b := PacketReassembled(cfg, a);
    s := ChunkDispatched(cfg, b);
    hide Step, Initial;
    ReachesOnward(cfg, Initial(order), a, b);
    ReachesOnward(cfg, Initial(order), b, s);
  }

  lemma PacketReassembled(cfg: Config, s: State) returns (t: State)
    requires s.ctl.main == Running && Calm(s) && s.procs.decoders > 0
    requires s.procs.splitter == Ranging && s.procs.reassembler == Live
    ensures Reaches(cfg, s, t) && t == s.(flow := Flow(0, 0, 0, true, 1, 0, 0, 0))
  {
    var u := Step(cfg, s, DecoderSends);
    assert u == s.(flow := s.flow.(decoded := 1));
    ReachesStep(cfg, s, DecoderSends);
    var v := Step(cfg, u, SplitterSendsTcp);
    assert v == s.(flow := s.flow.(tcp := 1));
    ReachesStep(cfg, u, SplitterSendsTcp);
    t := PacketFed(cfg, v);
    hide Step;
    ReachesOnward(cfg, s, u, v);
    ReachesOnward(cfg, s, v, t);
  }

  lemma PacketFed(cfg: Config, s: State) returns (t: State)
    requires s.ctl.main == Running && s.closed == {} && !s.panicked && s.procs.reassembler == Live
    requires s.flow == Flow(0, 1, 0, false, 0, 0, 0, 0)
    ensures Reaches(cfg, s, t) && t == s.(flow := Flow(0, 0, 0, true, 1, 0, 0, 0))
  {
    var u := Step(cfg, s, ReassemblerReceives);
    assert u == s.(flow := Flow(0, 0, 0, true, 0, 0, 0, 0));
    ReachesStep(cfg, s, ReassemblerReceives);
    t := Step(cfg, u, ReassemblerSends);
    ReachesStep(cfg, u, ReassemblerSends);
    assert t == s.(flow := Flow(0, 0, 0, true, 1, 0, 0, 0));
    hide Step;
    ReachesOnward(cfg, s, u, t);
  }

  lemma ChunkDispatched(cfg: Config, s: State) returns (t: State)
    requires s.ctl.main == Running && s.closed == {} && !s.panicked && s.procs.tcpLoop == Live
    requires s.flow == Flow(0, 0, 0, true, 1, 0, 0, 0)
    ensures Reaches(cfg, s, t) && t == s.(flow := Flow(0, 0, 0, true, 0, 0, 0, 1))
  {
    var u := Step(cfg, s, TcpLoopReceives(1));
    assert u == s.(flow := Flow(0, 0, 0, true, 0, 1, 0, 0));
    ReachesStep(cfg, s, TcpLoopReceives(1));
    t := Step(cfg, u, TcpLoopSends);
    ReachesStep(cfg, u, TcpLoopSends);
    assert t == s.(flow := Flow(0, 0, 0, true, 0, 0, 0, 1));
    hide Step;
    ReachesOnward(cfg, s, u, t);
  }

  /** Shutting down to Kafka, with the dispatcher still up and its event unsent. */
  ghost predicate Descending(order: seq<Stage>, s: State) {
    && Inv(order, s) && Between(s) && Kafka in s.ctl.up
    && s.flow.decoded == 0 && s.flow.udpEvents > 0 && s.procs.udpLoop == Live
    && (Decoder !in s.ctl.up ==> DecodeOut in s.closed)
  }

  /** On the way down a stage above Kafka can always be stopped. */
  lemma StopAbove(cfg: Config, order: seq<Stage>, s: State) returns (t: State)
    requires Danger(order) && Descending(order, s) && Top(s.ctl) != Kafka
    ensures Reaches(cfg, s, t) && Descending(order, t) && |t.ctl.up| < |s.ctl.up|
  {
    hide Before, Owned, Retired;
    var up := s.ctl.up;
    UnderTop(order, up, Kafka);
    BeforeOneWay(order, Dispatcher, Kafka);
    if Decoder in up && Top(s.ctl) != Decoder { UnderTop(order, up, Decoder); }
    PoppedStack(order, up);
    t := StopLast(cfg, order, s);
  }

  lemma {:induction false} StopToKafka(cfg: Config, order: seq<Stage>, s: State) returns (t: State)
    requires Danger(order) && Descending(order, s)
    ensures Reaches(cfg, s, t) && Descending(order, t) && Top(t.ctl) == Kafka
    decreases |s.ctl.up|
  {
    hide Inv, Danger, Between;
    if Top(s.ctl) == Kafka {
      t := s;
      ReachesItself(cfg, s);
    } else {
      var u := StopAbove(cfg, order, s);
      t := StopToKafka(cfg, order, u);
      ReachesOnward(cfg, s, u, t);
    }
  }

  lemma KafkaStopPanics(cfg: Config, order: seq<Stage>, s: State) returns (u: State)
    requires Descending(order, s) && Top(s.ctl) == Kafka
    ensures Reaches(cfg, s, u) && u.panicked
  {
    assert KafkaIn !in s.closed by { hide Before, Distinct, Owned; }
    hide Inv, Decide, Returning;
    var t := Step(cfg, s, StopStep);
    assert KafkaIn in t.closed && t.procs == s.procs && t.flow == s.flow && !t.panicked && t.ctl.main == Stopping;
    u := Step(cfg, t, UdpLoopSends);
    assert u.panicked;
    ReachesStep(cfg, s, StopStep);
    ReachesStep(cfg, t, UdpLoopSends);
    hide Step;
    ReachesOnward(cfg, s, t, u);
  }

  lemma DangerPanics(cfg: Config, order: seq<Stage>) returns (e: State)
    requires Distinct(order) && Danger(order) && cfg.decodeWorkers > 0
    ensures Reaches(cfg, Initial(order), e) && e.panicked
  {
    assert Dispatcher in order && Kafka in order;
    hide Inv, Step, Before, Distinct;
    var a := AllRunning(cfg, order);
    var b := PacketArrives(cfg, a);
    ReachesInv(cfg, order, a, b);
    var c := Signalled(cfg, order, b);
    var d := StopToKafka(cfg, order, c);
    e := KafkaStopPanics(cfg, order, d);
    ReachesOnward(cfg, Initial(order), a, b);
    ReachesOnward(cfg, Initial(order), b, c);
    ReachesOnward(cfg, Initial(order), c, d);
    ReachesOnward(cfg, Initial(order), d, e);
  }

  /**
   Some run sends on a closed channel or closes one twice if and only if the order is in danger: the
   dispatcher is started before Kafka, decoder and splitter are there to feed it, and no splitter started
   after both Kafka and the decoder keeps the shutdown from reaching Kafka.
   */
  lemma PanicsExactly(cfg: Config, order: seq<Stage>)
    requires Distinct(order) && cfg.decodeWorkers > 0
    ensures (exists s :: Reaches(cfg, Initial(order), s) && s.panicked) <==> Danger(order)
  {
    hide Danger, Before, Distinct;
    if Danger(order) { var e := DangerPanics(cfg, order); }
    InitialInv(order);
    forall s | Reaches(cfg, Initial(order), s) ensures s.panicked ==> Danger(order) {
      var acts :| Run(cfg, Initial(order), acts) == s;
      RunKeepsGuarded(cfg, order, Initial(order), acts);
    }
  }

  // ------------------------------------------------------------------ the order of netcap

  function Netcap(metrics: bool): seq<Stage> {
    [Decoder, Splitter, Reassembler, Kafka, Dispatcher] + if metrics then [Metrics] else []
  }

  /** What was started is the order without `todo`, and only a metrics server that comes next has failed. */
  ghost predicate Begun(order: seq<Stage>, s: State) {
    var n := |order| - |s.ctl.todo|;
    && n >= 0 && s.ctl.todo == order[n..]
    && (Splitter in order[..n] ==> s.procs.splitter != Idle)
    && (s.ctl.failed ==> s.ctl.todo != [] && s.ctl.todo[0] == Metrics)
  }

  lemma LaunchKeepsBegun(cfg: Config, order: seq<Stage>, s: State)
    requires Begun(order, s) && s.ctl.todo != [] && !s.ctl.failed
    ensures Begun(order, LaunchNext(cfg, s))
  {
    var n := |order| - |s.ctl.todo|;
    assert s.ctl.todo[0] == order[n] && s.ctl.todo[1..] == order[n + 1..];
    assert order[..n + 1] == order[..n] + [order[n]];
  }

  lemma StopLeavesTodo(s: State)
    requires s.ctl.up != []
    ensures var t := StopTop(s);
      t.ctl.todo == s.ctl.todo && t.ctl.failed == s.ctl.failed && t.procs == s.procs
  {}

  lemma AdvanceLeavesControl(s: State)
    ensures var t := AdvanceSplitter(s); t.ctl == s.ctl && (t.procs.splitter == Idle <==> s.procs.splitter == Idle)
  {}

  lemma DecideLeavesTodo(s: State, a: Action)
    ensures var c := Decide(s, a);
      c.todo == s.ctl.todo && (c.failed ==> s.ctl.failed || (c.todo != [] && c.todo[0] == Metrics))
  {}

  ghost predicate LeavesTodo(s: State, t: State) {
    && t.ctl.todo == s.ctl.todo
    && (s.procs.splitter != Idle ==> t.procs.splitter != Idle)
    && (t.ctl.failed ==> s.ctl.failed || (t.ctl.todo != [] && t.ctl.todo[0] == Metrics))
  }

  lemma BegunStays(order: seq<Stage>, s: State, t: State)
    requires Begun(order, s) && LeavesTodo(s, t)
    ensures Begun(order, t)
  {}

  lemma StepLeavesTodo(cfg: Config, s: State, a: Action)
    requires a != Launch
    ensures LeavesTodo(s, Step(cfg, s, a))
  {
    if s.ctl.up != [] { StopLeavesTodo(s); }
    AdvanceLeavesControl(s);
    DecideLeavesTodo(s, a);
    ReturningKeepsSplitter(s, a);
    hide LaunchNext, AfterSend, AfterReceive, StopTop, AdvanceSplitter, Decide, Returning, SendsOn;
  }

  lemma StepKeepsBegun(cfg: Config, order: seq<Stage>, s: State, a: Action)
    requires Inv(order, s) && Begun(order, s)
    ensures Begun(order, Step(cfg, s, a))
  {
    hide Begun, LeavesTodo, Owned, Retired, Distinct, Before, LaunchNext, AfterSend, AfterReceive, Returning;
    if a != Launch {
      StepLeavesTodo(cfg, s, a);
      BegunStays(order, s, Step(cfg, s, a));
    } else if s.ctl.main == Starting && s.ctl.todo != [] {
      LaunchKeepsBegun(cfg, order, s);
    } else {
      hide Inv;
      NothingToLaunch(cfg, s);
    }
  }

  lemma NothingToLaunch(cfg: Config, s: State)
    requires s.ctl.main != Starting || s.ctl.todo == []
    ensures Step(cfg, s, Launch) == s
  {}

  lemma {:induction false} RunKeepsBegun(cfg: Config, order: seq<Stage>, s: State, acts: seq<Action>)
    requires Inv(order, s) && Begun(order, s)
    ensures Begun(order, Run(cfg, s, acts))
    decreases |acts|
  {
    hide Inv, Step, Begun;
    if acts != [] {
      StepKeepsInv(cfg, order, s, acts[0]);
      StepKeepsBegun(cfg, order, s, acts[0]);
      RunKeepsBegun(cfg, order, Step(cfg, s, acts[0]), acts[1..]);
    }
  }

  /**
   In netcap's order no run panics, and none ever reaches the end of main: a shutdown, or the rollback when
   the metrics server cannot start, waits for the splitter and never gets to the decoder.
   */
  lemma NetcapRuns(cfg: Config, metrics: bool, acts: seq<Action>)
    ensures var s := Run(cfg, Initial(Netcap(metrics)), acts);
      && !s.panicked && s.ctl.main != Ended
      && (s.procs.splitter != Idle ==> [Decoder, Splitter] <= s.ctl.up)
  {
    var order := Netcap(metrics);
    var s := Run(cfg, Initial(order), acts);
    NetcapOrder(metrics);
    ClosedAfterItsSenders(cfg, order, acts);
    NeverReturns(cfg, order, acts);
    InitialInv(order);
    RunKeepsWaiting(cfg, order, Initial(order), acts);
    RunKeepsBegun(cfg, order, Initial(order), acts);
    hide Run, Initial, SendsOn, Before, Distinct, SplitterWaits, Owned, Retired;
    if s.ctl.failed { MetricsComesLast(metrics, s); }
    hide Netcap;
    if s.procs.splitter != Idle { FirstTwoUp(order, s.ctl.up); }
  }

  lemma MetricsComesLast(metrics: bool, s: State)
    requires Begun(Netcap(metrics), s) && s.ctl.failed
    ensures s.procs.splitter != Idle
  {
    var order := Netcap(metrics);
    var n := |order| - |s.ctl.todo|;
    assert order[n] == Metrics && n == 5;
    assert order[..n][1] == Splitter;
  }

  lemma FirstTwoUp(order: seq<Stage>, up: seq<Stage>)
    requires |order| >= 2 && order[0] == Decoder && forall i :: 0 <= i < |order| && order[i] == Splitter ==> i == 1
    requires up <= order && Splitter in up
    ensures [Decoder, Splitter] <= up
  {
    var i :| 0 <= i < |up| && up[i] == Splitter;
    assert order[i] == Splitter && up[0] == order[0];
  }

  lemma NetcapOrder(metrics: bool)
    ensures var order := Netcap(metrics);
      && Distinct(order) && SplitterWaits(order) && !Before(order, Dispatcher, Kafka)
      && |order| >= 5 && order[0] == Decoder && order[1] == Splitter
      && forall i :: 0 <= i < |order| && order[i] == Splitter ==> i == 1
  {
    assert Netcap(metrics)[1] == Splitter;
  }

  /** It does get there: the stages stopped before the splitter close their channels in some run. */
  lemma NetcapReachesTheSplitter(cfg: Config) returns (s: State)
    ensures Reaches(cfg, Initial(Netcap(false)), s) && Between(s)
    ensures s.ctl.up == [Decoder, Splitter] && KafkaIn in s.closed && ReassemblyOut in s.closed
  {
    var order := Netcap(false);
    var start := Initial(order);
    NetcapOrder(false);
    var a := ShutdownBegins(cfg, order);
    hide Inv, Initial, Distinct, Before;
    var b := StopLast(cfg, order, a);
    assert b.ctl.up == [Decoder, Splitter, Reassembler, Kafka];
    ReachesOnward(cfg, start, a, b);
    s := NetcapStopsTwoMore(cfg, order, b);
    ReachesOnward(cfg, start, b, s);
  }

  lemma NetcapStopsTwoMore(cfg: Config, order: seq<Stage>, b: State) returns (s: State)
    requires Inv(order, b) && Between(b) && b.ctl.up == [Decoder, Splitter, Reassembler, Kafka]
    ensures Reaches(cfg, b, s) && Between(s)
    ensures s.ctl.up == [Decoder, Splitter] && KafkaIn in s.closed && ReassemblyOut in s.closed
  {
    hide Inv;
    var c := StopLast(cfg, order, b);
    assert c.ctl.up == [Decoder, Splitter, Reassembler];
    s := StopLast(cfg, order, c);
    assert s.ctl.up == [Decoder, Splitter];
    ReachesOnward(cfg, b, c, s);
  }
}
