/**
 Request/response pairing of the HTTP parser: internal/protocol/http/parser.go.

 Message parsing is the library's: a chunk is the number of complete messages it holds and how reading
 on failed. Looking up a connection's state and stamping it is one atomic step, and so is the janitor's
 look at one connection with its deletion; a sweep is as many such steps as there are connections, with
 anything in between. `Step` says what each operation does to the table of counters; the class is proved
 to do it; the theorems are about every run of operations, over all connections and both directions.
 */
module HttpPairing {
  import opened Common
  import opened Decimal

  const TWO64: nat := 0x1_0000_0000_0000_0000
  type U64 = v: int | 0 <= v < TWO64

  /** connStateTTL, 15 minutes in nanoseconds. */
  const TTL: int := 900_000_000_000

  // ------------------------------------------------------------------ identifiers

  /** makeUID: "%016x-%d". */
  function MakeUid(conn: U64, n: U64): bytes { HexPadded(conn, 16) + [MINUS] + Numeral(n) }

  lemma UidInjective(c: U64, m: U64, d: U64, n: U64)
    ensures MakeUid(c, m) == MakeUid(d, n) <==> c == d && m == n
  {
    if MakeUid(c, m) == MakeUid(d, n) {
      var u, v := MakeUid(c, m), MakeUid(d, n);
      assert u[..16] == HexPadded(c, 16) && v[..16] == HexPadded(d, 16);
      assert u[17..] == Numeral(m) && v[17..] == Numeral(n);
      Power16Of16();
      HexPaddedInjective(c, d, 16);
      NumeralInjective(m, n);
    }
  }

  /** Sixteen lower-case hexadecimal digits that read the connection, a dash, and the decimal number. */
  lemma UidReads(conn: U64, n: U64)
    ensures var u := MakeUid(conn, n);
      && |u| > 17 && HexValue(u[..16]) == Some(conn) && u[16] == 45
      && Canonical(u[17..]) && ValueOf(u[17..]) == n
  {
    Power16Of16();
    HexPaddedReads(conn, 16);
    NumeralReads(n);
    var u := MakeUid(conn, n);
    assert u[..16] == HexPadded(conn, 16) && u[17..] == Numeral(n);
  }

  lemma Power16Of16()
    ensures Power16(16) == TWO64
  {
    assert Power16(4) == 0x1_0000;
    assert Power16(8) == 0x1_0000_0000;
    assert Power16(12) == 0x1_0000_0000_0000;
  }

  // ------------------------------------------------------------------ the table of counters

  datatype Counters = Counters(reqSeq: U64, respSeq: U64, lastActivity: int)

  type Table = map<U64, Counters>

  datatype Operation =
    | Parse(conn: U64, dir: Dir, messages: nat, now: int)
    | Evict(conn: U64, now: int)
    | Close(conn: U64)

  function Next(c: Counters, dir: Dir): U64 { if dir.Request? then c.reqSeq else c.respSeq }

  /** The counter of one direction after k increments, wrapping at 2^64. */
  function Counted(c: Counters, dir: Dir, k: nat): Counters {
    if dir.Request? then c.(reqSeq := (c.reqSeq + k) % TWO64) else c.(respSeq := (c.respSeq + k) % TWO64)
  }

  lemma StampKeepsNext(c: Counters, dir: Dir, now: int)
    ensures Next(c.(lastActivity := now), dir) == Next(c, dir)
  {}

  function Fetched(t: Table, conn: U64): Counters { if conn in t then t[conn] else Counters(0, 0, 0) }

  function Step(t: Table, op: Operation): Table {
    match op
    case Parse(conn, dir, k, now) => t[conn := Counted(Fetched(t, conn).(lastActivity := now), dir, k)]
    case Evict(conn, now) => if conn in t && t[conn].lastActivity < now - TTL then t - {conn} else t
    case Close(conn) => t - {conn}
  }

  /** A state goes when it has been idle for more than fifteen minutes of nanoseconds. */
  lemma IdleTooLong(t: Table, conn: U64, now: int)
    requires conn in t
    ensures conn !in Step(t, Evict(conn, now)) <==> now - t[conn].lastActivity > 15 * 60 * 1_000_000_000
  {}

  /** The table without what has been idle past the cutoff. */
  function Swept(t: Table, now: int): Table {
    map c | c in t && t[c].lastActivity >= now - TTL :: t[c]
  }

  /** Evictions of connections, one after the other. */
  function Evicted(t: Table, conns: seq<U64>, now: int): Table {
    if conns == [] then t else Evicted(Step(t, Evict(conns[0], now)), conns[1..], now)
  }

  /** A sweep is the eviction of each connection, in whatever order. */
  lemma {:induction false} SweepIsEvictions(t: Table, conns: seq<U64>, now: int)
    requires forall c :: c in t && t[c].lastActivity < now - TTL ==> c in conns
    ensures Evicted(t, conns, now) == Swept(t, now)
    decreases |conns|
  {
    if conns == [] {
      assert Swept(t, now) == t;
    } else {
      var u := Step(t, Evict(conns[0], now));
      assert conns == [conns[0]] + conns[1..];
      SweepIsEvictions(u, conns[1..], now);
      assert Swept(u, now) == Swept(t, now);
    }
  }

  /** The sequence numbers a Parse gives to its messages. */
  function Numbers(start: U64, k: nat): (ns: seq<U64>)
    ensures |ns| == k && forall i :: 0 <= i < k ==> ns[i] == (start + i) % TWO64
  {
    seq(k, i requires 0 <= i < k => (start + i) % TWO64)
  }

  /** The identifiers of those messages. */
  function Uids(conn: U64, start: U64, k: nat): (uids: seq<bytes>)
    ensures |uids| == k && forall i :: 0 <= i < k ==> uids[i] == MakeUid(conn, Numbers(start, k)[i])
  {
    seq(k, i requires 0 <= i < k => MakeUid(conn, Numbers(start, k)[i]))
  }

  // ------------------------------------------------------------------ the parser object

  class ConnState {
    var reqSeq: U64
    var respSeq: U64
    var lastActivity: int

    constructor ()
      ensures reqSeq == 0 && respSeq == 0 && lastActivity == 0
    {
      reqSeq, respSeq, lastActivity := 0, 0, 0;
    }

    function View(): Counters
      reads this
    {
      Counters(reqSeq, respSeq, lastActivity)
    }
  }

  /** How reading one more message from the buffer failed. */
  datatype Ending = Eof | UnexpectedEof | Malformed

  datatype Result = Events(uids: seq<bytes>) | Nothing | ParseError

  class Parser {
    var connStates: map<U64, ConnState>

    /** Every connection has a state of its own. */
    ghost predicate Valid()
      reads this
    {
      forall c, d :: c in connStates && d in connStates && c != d ==> connStates[c] != connStates[d]
    }

    ghost function View(): Table
      reads this, connStates.Values
    {
      map c | c in connStates :: connStates[c].View()
    }

    constructor ()
      ensures Valid() && View() == map[]
    {
      connStates := map[];
    }

    /** stateFor: load, or store a fresh state. */
    method StateFor(conn: U64) returns (s: ConnState)
      requires Valid()
      modifies this
      ensures Valid() && conn in connStates && connStates[conn] == s
      ensures forall c :: c in old(connStates) ==> c in connStates && connStates[c] == old(connStates[c])
      ensures connStates.Keys == old(connStates.Keys) + {conn}
      ensures conn !in old(connStates) ==> fresh(s)
      ensures s.View() == old(Fetched(View(), conn))
    {
      if conn in connStates { return connStates[conn]; }
      s := new ConnState();
      connStates := connStates[conn := s];
    }

    /** The lookup and the stamp. */
    method Touch(conn: U64, now: int) returns (s: ConnState)
      requires Valid()
      modifies this, connStates.Values
      ensures Valid() && fresh(connStates.Values - old(connStates.Values))
      ensures conn in connStates && connStates[conn] == s && (s in old(connStates.Values) || fresh(s))
      ensures View() == old(View())[conn := old(Fetched(View(), conn)).(lastActivity := now)]
    {
      ghost var before := View();
      s := StateFor(conn);
      s.lastActivity := now;
      forall c | c in connStates && c != conn ensures connStates[c].View() == before[c] {}
    }

    /** The reading loop: each complete message takes the next number of its direction. */
    method NumberMessages(state: ConnState, conn: U64, dir: Dir, messages: nat) returns (uids: seq<bytes>)
      modifies state
      ensures state.View() == Counted(old(state.View()), dir, messages)
      ensures uids == Uids(conn, Next(old(state.View()), dir), messages)
    {
      hide MakeUid;
      ghost var before := state.View();
      uids := [];
      for i := 0 to messages
        invariant state.View() == Counted(before, dir, i)
        invariant |uids| == i
        invariant forall k :: 0 <= k < i ==> uids[k] == MakeUid(conn, Numbers(Next(before, dir), messages)[k])
      {
        var n: U64;
        AddMod(Next(before, dir) + i, 1);
        if dir.Request? {
          n := state.reqSeq;
          state.reqSeq := (state.reqSeq + 1) % TWO64;
        } else {
          n := state.respSeq;
          state.respSeq := (state.respSeq + 1) % TWO64;
        }
        uids := uids + [MakeUid(conn, n)];
      }
    }

    /** Parse: stamp the state, number the complete messages, and report a failure only when there were none. */
    method Parse(conn: U64, dir: Dir, messages: nat, ending: Ending, now: int) returns (r: Result)
      requires Valid()
      modifies this, connStates.Values
      ensures Valid() && fresh(connStates.Values - old(connStates.Values))
      ensures View() == Step(old(View()), Operation.Parse(conn, dir, messages, now))
      ensures r == if messages > 0 then Events(Uids(conn, Next(old(Fetched(View(), conn)), dir), messages))
                   else if ending.Malformed? then ParseError else Nothing
    {
      hide Uids, Counted, Next;
      ghost var before := View();
      var state := Touch(conn, now);
      ghost var touched := View();
      var uids := NumberMessages(state, conn, dir, messages);
      assert View() == touched[conn := state.View()];
      assert touched[conn] == Fetched(before, conn).(lastActivity := now);
      StampKeepsNext(Fetched(before, conn), dir, now);
      if |uids| > 0 { return Events(uids); }
      r := if ending.Malformed? then ParseError else Nothing;
    }

    /** What gcLoop does with one connection: delete it if it has been idle past the cutoff. */
    method EvictIdle(conn: U64, now: int)
      requires Valid()
      modifies this
      ensures Valid() && connStates.Values <= old(connStates.Values)
      ensures connStates == if conn in old(connStates) && old(connStates[conn].lastActivity) < now - TTL
                            then old(connStates) - {conn} else old(connStates)
      ensures View() == Step(old(View()), Evict(conn, now))
    {
      if conn in connStates {
        if connStates[conn].lastActivity < now - TTL { connStates := connStates - {conn}; }
      }
    }

    /** One tick of gcLoop with nothing in between: the range over the table. */
    method SweepOnce(now: int)
      requires Valid()
      modifies this
      ensures Valid() && connStates.Values <= old(connStates.Values)
      ensures View() == Swept(old(View()), now)
    {
      var todo := connStates.Keys;
      while todo != {}
        invariant Valid() && todo <= connStates.Keys <= old(connStates.Keys)
        invariant forall c :: c in connStates ==> connStates[c] == old(connStates[c])
        invariant forall c :: c in old(connStates) - todo ==>
                    (c in connStates <==> old(connStates[c]).lastActivity >= now - TTL)
        decreases |todo|
      {
        var k :| k in todo;
        todo := todo - {k};
        EvictIdle(k, now);
      }
    }

    /** OnConnClose. */
    method OnConnClose(conn: U64)
      requires Valid()
      modifies this
      ensures Valid() && connStates.Values <= old(connStates.Values)
      ensures View() == Step(old(View()), Close(conn))
    {
      connStates := connStates - {conn};
    }
  }

  // ------------------------------------------------------------------ runs

  /** An emitted message; `life` names the lifetime of the connection's state that numbered it. */
  datatype Event = Event(conn: U64, dir: Dir, life: nat, n: U64)

  function Uid(e: Event): bytes { MakeUid(e.conn, e.n) }

  /** The table, the lifetime of each entry, and everything emitted so far. */
  datatype World = World(table: Table, lives: map<U64, nat>, clock: nat, trace: seq<Event>)

  function Emitted(conn: U64, dir: Dir, life: nat, ns: seq<U64>): (es: seq<Event>)
    ensures |es| == |ns| && forall i :: 0 <= i < |ns| ==> es[i] == Event(conn, dir, life, ns[i])
  {
    seq(|ns|, i requires 0 <= i < |ns| => Event(conn, dir, life, ns[i]))
  }

  function Stepped(w: World, op: Operation): World {
    var table := Step(w.table, op);
    var lives := map c | c in table :: if c in w.lives then w.lives[c] else w.clock;
    var new_ := if op.Parse?
                then Emitted(op.conn, op.dir, lives[op.conn],
                             Numbers(Next(Fetched(w.table, op.conn), op.dir), op.messages))
                else [];
    World(table, lives, w.clock + 1, w.trace + new_)
  }

  function Run(ops: seq<Operation>): World {
    if ops == [] then World(map[], map[], 0, []) else Stepped(Run(ops[..|ops| - 1]), ops[|ops| - 1])
  }

  lemma RunStep(ops: seq<Operation>, op: Operation)
    ensures Run(ops + [op]) == Stepped(Run(ops), op)
  {
    assert (ops + [op])[..|ops|] == ops;
  }

  /** What a Parse leaves behind for its own connection, and what it appends to the trace. */
  lemma ParseFacts(w: World, op: Operation)
    requires op.Parse?
    ensures var v := Stepped(w, op);
      && op.conn in v.table && v.table[op.conn].lastActivity == op.now
      && v.lives[op.conn] == (if op.conn in w.lives then w.lives[op.conn] else w.clock)
      && |v.trace| == |w.trace| + op.messages && v.trace[..|w.trace|] == w.trace
      && forall j :: |w.trace| <= j < |v.trace| ==>
           v.trace[j] == Event(op.conn, op.dir, v.lives[op.conn],
                               (Next(Fetched(w.table, op.conn), op.dir) + (j - |w.trace|)) % TWO64)
  {
    hide Next, Fetched;
  }

  /** How many events of one direction of one lifetime a trace holds. */
  function Count(trace: seq<Event>, conn: U64, life: nat, dir: Dir): nat {
    if trace == [] then 0
    else
      var e := trace[|trace| - 1];
      Count(trace[..|trace| - 1], conn, life, dir) + (if e.conn == conn && e.life == life && e.dir == dir then 1 else 0)
  }

  /** Position of an event among those of its own lifetime and direction. */
  function Rank(trace: seq<Event>, i: nat): nat
    requires i < |trace|
  {
    Count(trace[..i], trace[i].conn, trace[i].life, trace[i].dir)
  }

  /** What every reachable world keeps. */
  ghost predicate Numbered(w: World) {
    && w.lives.Keys == w.table.Keys
    && (forall c :: c in w.lives ==> w.lives[c] < w.clock)
    && (forall i :: 0 <= i < |w.trace| ==> w.trace[i].life < w.clock)
    && (forall i :: 0 <= i < |w.trace| ==> w.trace[i].n == Rank(w.trace, i) % TWO64)
    && (forall c :: c in w.table ==>
          && w.table[c].reqSeq == Count(w.trace, c, w.lives[c], Request) % TWO64
          && w.table[c].respSeq == Count(w.trace, c, w.lives[c], Response) % TWO64)
  }

  lemma {:induction false} CountFresh(trace: seq<Event>, conn: U64, life: nat, dir: Dir)
    requires forall i :: 0 <= i < |trace| ==> trace[i].life < life
    ensures Count(trace, conn, life, dir) == 0
  {
    if trace != [] { CountFresh(trace[..|trace| - 1], conn, life, dir); }
  }

  lemma {:induction false} CountEmitted(
    trace: seq<Event>, conn: U64, dir: Dir, life: nat, ns: seq<U64>, k: nat, c: U64, b: nat, d: Dir)
    requires k <= |ns|
    ensures Count(trace + Emitted(conn, dir, life, ns)[..k], c, b, d)
         == Count(trace, c, b, d) + (if c == conn && b == life && d == dir then k else 0)
  {
    var es := Emitted(conn, dir, life, ns);
    if k == 0 {
      assert trace + es[..0] == trace;
    } else {
      var t := trace + es[..k];
      assert t[..|t| - 1] == trace + es[..k - 1] && t[|t| - 1] == es[k - 1];
      CountEmitted(trace, conn, dir, life, ns, k - 1, c, b, d);
    }
  }

  lemma RankKept(trace: seq<Event>, more: seq<Event>, i: nat)
    requires i < |trace|
    ensures Rank(trace + more, i) == Rank(trace, i)
  {
    assert (trace + more)[..i] == trace[..i];
  }

  lemma AddMod(a: nat, b: nat)
    ensures (a % TWO64 + b) % TWO64 == (a + b) % TWO64
  {
    var q := a / TWO64;
    assert a % TWO64 + b == (a + b) - TWO64 * q;
    ModShift(a % TWO64 + b, q);
  }

  lemma {:induction false} ModShift(r: nat, q: nat)
    ensures (r + TWO64 * q) % TWO64 == r % TWO64
  {
    if q > 0 { ModShift(r, q - 1); assert r + TWO64 * q == (r + TWO64 * (q - 1)) + TWO64; }
  }

  /** The counter a Parse starts from is the number of events its stream has, which is 0 in a new lifetime. */
  lemma StartsAtCount(w: World, op: Operation)
    requires Numbered(w) && op.Parse?
    ensures var life := Stepped(w, op).lives[op.conn];
      && Next(Fetched(w.table, op.conn), op.dir) == Count(w.trace, op.conn, life, op.dir) % TWO64
      && Fetched(w.table, op.conn).reqSeq == Count(w.trace, op.conn, life, Request) % TWO64
      && Fetched(w.table, op.conn).respSeq == Count(w.trace, op.conn, life, Response) % TWO64
  {
    hide Count, Rank, Numbers, Emitted;
    if op.conn !in w.table {
      CountFresh(w.trace, op.conn, w.clock, Request);
      CountFresh(w.trace, op.conn, w.clock, Response);
    }
  }

  lemma ParseKeepsRanks(w: World, op: Operation)
    requires Numbered(w) && op.Parse?
    ensures var t := Stepped(w, op).trace; forall i :: 0 <= i < |t| ==> t[i].n == Rank(t, i) % TWO64
  {
    hide Count, Numbers, Next, Fetched, Counted;
    var v := Stepped(w, op);
    var life, start := v.lives[op.conn], Next(Fetched(w.table, op.conn), op.dir);
    var ns := Numbers(start, op.messages);
    var es := Emitted(op.conn, op.dir, life, ns);
    StartsAtCount(w, op);
    var base := Count(w.trace, op.conn, life, op.dir);
    forall i | 0 <= i < |v.trace| ensures v.trace[i].n == Rank(v.trace, i) % TWO64 {
      if i < |w.trace| {
        RankKept(w.trace, es, i);
      } else {
        var k := i - |w.trace|;
        CountEmitted(w.trace, op.conn, op.dir, life, ns, k, op.conn, life, op.dir);
        assert v.trace[..i] == w.trace + es[..k];
        AddMod(base, k);
      }
    }
  }

  /** A Parse extends the trace by consecutive ranks of its own stream and leaves every other stream alone. */
  lemma ParseKeepsNumbered(w: World, op: Operation)
    requires Numbered(w) && op.Parse?
    ensures Numbered(Stepped(w, op))
  {
    hide Count, Rank, Numbers;
    var v := Stepped(w, op);
    var life := v.lives[op.conn];
    var ns := Numbers(Next(Fetched(w.table, op.conn), op.dir), op.messages);
    ParseKeepsRanks(w, op);
    StartsAtCount(w, op);
    forall c | c in v.table
      ensures v.table[c].reqSeq == Count(v.trace, c, v.lives[c], Request) % TWO64
      ensures v.table[c].respSeq == Count(v.trace, c, v.lives[c], Response) % TWO64
    {
      CountEmitted(w.trace, op.conn, op.dir, life, ns, |ns|, c, v.lives[c], Request);
      CountEmitted(w.trace, op.conn, op.dir, life, ns, |ns|, c, v.lives[c], Response);
      assert Emitted(op.conn, op.dir, life, ns)[..|ns|] == Emitted(op.conn, op.dir, life, ns);
      AddMod(Count(w.trace, op.conn, life, op.dir), op.messages);
    }
  }

  lemma DropKeepsNumbered(w: World, op: Operation)
    requires Numbered(w) && !op.Parse?
    ensures Numbered(Stepped(w, op))
  {
    hide Count, Rank;
    assert Stepped(w, op).trace == w.trace;
  }

  lemma {:induction false} RunNumbered(ops: seq<Operation>)
    ensures Numbered(Run(ops))
    ensures Run(ops).clock == |ops|
  {
    hide Numbered;
    if ops == [] {
      EmptyNumbered();
    } else {
      RunNumbered(ops[..|ops| - 1]);
      var w, op := Run(ops[..|ops| - 1]), ops[|ops| - 1];
      if op.Parse? { ParseKeepsNumbered(w, op); } else { DropKeepsNumbered(w, op); }
    }
  }

  lemma EmptyNumbered()
    ensures Numbered(World(map[], map[], 0, []))
  {}

  /** Ranks within one stream are distinct and increasing. */
  lemma {:induction false} RanksIncrease(trace: seq<Event>, i: nat, j: nat)
    requires i < j < |trace|
    requires trace[i].conn == trace[j].conn && trace[i].life == trace[j].life && trace[i].dir == trace[j].dir
    ensures Rank(trace, i) < Rank(trace, j)
  {
    CountGrows(trace, i, j, trace[i].conn, trace[i].life, trace[i].dir);
  }

  lemma {:induction false} CountGrows(trace: seq<Event>, i: nat, j: nat, conn: U64, life: nat, dir: Dir)
    requires i < j <= |trace| && trace[i].conn == conn && trace[i].life == life && trace[i].dir == dir
    ensures Count(trace[..i], conn, life, dir) < Count(trace[..j], conn, life, dir)
    decreases j
  {
    assert trace[..j][..j - 1] == trace[..j - 1];
    if i < j - 1 { CountGrows(trace, i, j - 1, conn, life, dir); }
  }

  /** Nothing is skipped: below every rank of a stream each smaller rank occurs. */
  lemma {:induction false} RanksDense(trace: seq<Event>, j: nat, conn: U64, life: nat, dir: Dir, k: nat)
    returns (i: nat)
    requires j <= |trace| && k < Count(trace[..j], conn, life, dir)
    ensures i < j && trace[i].conn == conn && trace[i].life == life && trace[i].dir == dir && Rank(trace, i) == k
    decreases j
  {
    assert trace[..j][..j - 1] == trace[..j - 1];
    if k < Count(trace[..j - 1], conn, life, dir) {
      i := RanksDense(trace, j - 1, conn, life, dir, k);
    } else {
      i := j - 1;
    }
  }

  /** No direction of a lifetime emits 2^64 messages or more. */
  ghost predicate BelowWrap(trace: seq<Event>) {
    forall i :: 0 <= i < |trace| ==> Rank(trace, i) < TWO64
  }

  /**
   Pairing. In every run, two emitted events of one lifetime carry the same identifier exactly when each
   is the k-th of its direction for the same k. So the k-th request and the k-th response are paired, and
   two different events that share an identifier are a request and a response.
   */
  lemma Pairing(ops: seq<Operation>, i: nat, j: nat)
    requires i < |Run(ops).trace| && j < |Run(ops).trace| && BelowWrap(Run(ops).trace)
    requires Run(ops).trace[i].life == Run(ops).trace[j].life && Run(ops).trace[i].conn == Run(ops).trace[j].conn
    ensures var t := Run(ops).trace;
      && (Uid(t[i]) == Uid(t[j]) <==> Rank(t, i) == Rank(t, j))
      && (i != j && Uid(t[i]) == Uid(t[j]) ==> t[i].dir != t[j].dir)
  {
    hide Run, Count, MakeUid;
    RunNumbered(ops);
    var t := Run(ops).trace;
    UidInjective(t[i].conn, t[i].n, t[j].conn, t[j].n);
    if i != j && t[i].dir == t[j].dir {
      if i < j { RanksIncrease(t, i, j); } else { RanksIncrease(t, j, i); }
    }
  }

  /** Without any bound on the run: identifiers of one lifetime agree exactly when the ranks agree modulo 2^64. */
  lemma PairingModulo(ops: seq<Operation>, i: nat, j: nat)
    requires i < |Run(ops).trace| && j < |Run(ops).trace|
    requires Run(ops).trace[i].life == Run(ops).trace[j].life && Run(ops).trace[i].conn == Run(ops).trace[j].conn
    ensures var t := Run(ops).trace;
      Uid(t[i]) == Uid(t[j]) <==> Rank(t, i) % TWO64 == Rank(t, j) % TWO64
  {
    hide Run, Count, MakeUid;
    RunNumbered(ops);
    var t := Run(ops).trace;
    UidInjective(t[i].conn, t[i].n, t[j].conn, t[j].n);
  }

  /**
   Every message gets its partner: once the other direction of its lifetime has emitted more messages than
   went before it in its own, exactly one of those carries its identifier.
   */
  lemma PartnerExists(ops: seq<Operation>, j: nat) returns (i: nat)
    requires j < |Run(ops).trace| && BelowWrap(Run(ops).trace)
    requires var t := Run(ops).trace;
      Count(t, t[j].conn, t[j].life, if t[j].dir.Request? then Response else Request) > Rank(t, j)
    ensures var t := Run(ops).trace;
      && i < |t| && t[i].conn == t[j].conn && t[i].life == t[j].life && t[i].dir != t[j].dir && Uid(t[i]) == Uid(t[j])
      && forall k :: 0 <= k < |t| && t[k].conn == t[j].conn && t[k].life == t[j].life && Uid(t[k]) == Uid(t[j])
           ==> k == i || k == j
  {
    hide Run, Count, MakeUid;
    var t := Run(ops).trace;
    assert t[..|t|] == t;
    i := RanksDense(t, |t|, t[j].conn, t[j].life, if t[j].dir.Request? then Response else Request, Rank(t, j));
    Pairing(ops, i, j);
    forall k | 0 <= k < |t| && t[k].conn == t[j].conn && t[k].life == t[j].life && Uid(t[k]) == Uid(t[j])
      ensures k == i || k == j
    {
      Pairing(ops, k, j);
      Pairing(ops, k, i);
    }
  }

  /** The numbers of a stream are 0, 1, 2, ... without gap. */
  lemma NumbersConsecutive(ops: seq<Operation>, j: nat, k: nat) returns (i: nat)
    requires j < |Run(ops).trace| && k < Rank(Run(ops).trace, j) < TWO64
    ensures var t := Run(ops).trace;
      && i < j && t[i].conn == t[j].conn && t[i].life == t[j].life && t[i].dir == t[j].dir
      && t[i].n == k && t[j].n == Rank(t, j)
  {
    hide Run, Count;
    RunNumbered(ops);
    var t := Run(ops).trace;
    i := RanksDense(t, j, t[j].conn, t[j].life, t[j].dir, k);
  }

  /** Identifiers never cross connections. */
  lemma NoCrossing(ops: seq<Operation>, i: nat, j: nat)
    requires i < |Run(ops).trace| && j < |Run(ops).trace|
    ensures var t := Run(ops).trace; Uid(t[i]) == Uid(t[j]) ==> t[i].conn == t[j].conn
  {
    hide Run, MakeUid;
    var t := Run(ops).trace;
    UidInjective(t[i].conn, t[i].n, t[j].conn, t[j].n);
  }

  lemma CloseDrops(w: World, conn: U64)
    ensures conn !in Stepped(w, Close(conn)).table && conn !in Stepped(w, Close(conn)).lives
  {}

  lemma StartsAtZero(dir: Dir)
    ensures Next(Counters(0, 0, 0), dir) == 0
  {}

  /** After a close the connection identifier starts a new lifetime whose numbers begin at 0 again. */
  lemma CloseRestarts(ops: seq<Operation>, conn: U64, dir: Dir, k: nat, now: int)
    requires ops != [] && ops[|ops| - 1] == Close(conn)
    ensures conn !in Run(ops).table
    ensures var w, v := Run(ops), Run(ops + [Parse(conn, dir, k, now)]);
      && |v.trace| == |w.trace| + k
      && forall j :: |w.trace| <= j < |v.trace| ==> v.trace[j] == Event(conn, dir, |ops|, (j - |w.trace|) % TWO64)
  {
    hide Run, Stepped, Numbered, Next;
    var w, op := Run(ops), Operation.Parse(conn, dir, k, now);
    RunNumbered(ops);
    RunStep(ops[..|ops| - 1], ops[|ops| - 1]);
    assert ops[..|ops| - 1] + [ops[|ops| - 1]] == ops;
    CloseDrops(Run(ops[..|ops| - 1]), conn);
    RunStep(ops, op);
    ParseFacts(w, op);
    StartsAtZero(dir);
  }

  // ------------------------------------------------------------------ the janitor

  function TimeOf(op: Operation): Option<int> {
    match op
    case Parse(_, _, _, now) => Some(now)
    case Evict(_, now) => Some(now)
    case Close(_) => None
  }

  /** The latest time stamp of a run, and of its Parse calls on one connection. */
  function Latest(ops: seq<Operation>): Option<int> {
    if ops == [] then None
    else
      var t, before := TimeOf(ops[|ops| - 1]), Latest(ops[..|ops| - 1]);
      if before.None? || (t.Some? && before.value <= t.value) then t else before
  }

  function LastParse(ops: seq<Operation>, conn: U64): Option<int> {
    if ops == [] then None
    else
      var op := ops[|ops| - 1];
      if op.Parse? && op.conn == conn then Some(op.now) else LastParse(ops[..|ops| - 1], conn)
  }

  /**
   No Parse is stamped before a time already seen, and the Parse calls of the connection are at most a TTL
   apart. An eviction may use any time: a tick handled late carries an old one.
   */
  ghost predicate Timely(ops: seq<Operation>, conn: U64) {
    ops == []
    || var front, op := ops[..|ops| - 1], ops[|ops| - 1];
      && Timely(front, conn)
      && (op.Parse? && Latest(front).Some? ==> Latest(front).value <= op.now)
      && (op.Parse? && op.conn == conn && LastParse(front, conn).Some? ==> op.now - LastParse(front, conn).value <= TTL)
  }

  /** And the connection is not closed. */
  ghost predicate Steady(ops: seq<Operation>, conn: U64) {
    Timely(ops, conn) && Close(conn) !in ops
  }

  /** All events of the connection belong to one lifetime, the current one unless it has been idle too long. */
  ghost predicate OneLife(ops: seq<Operation>, conn: U64, life: nat) {
    var w := Run(ops);
    && (forall i :: 0 <= i < |w.trace| && w.trace[i].conn == conn ==> w.trace[i].life == life)
    && (match LastParse(ops, conn)
        case None => conn !in w.table && forall i :: 0 <= i < |w.trace| ==> w.trace[i].conn != conn
        case Some(t) =>
          && Latest(ops).Some? && t <= Latest(ops).value
          && (conn in w.table ==> w.table[conn].lastActivity == t && w.lives[conn] == life)
          && (conn !in w.table ==> Latest(ops).value - t > TTL))
  }

  lemma EmptyOneLife(conn: U64)
    ensures OneLife([], conn, 0)
  {}

  lemma {:induction false} SteadyOneLife(ops: seq<Operation>, conn: U64) returns (life: nat)
    requires Steady(ops, conn)
    ensures OneLife(ops, conn, life)
  {
    hide Run, Numbered, OneLife, Latest;
    if ops == [] {
      life := 0;
      EmptyOneLife(conn);
    } else {
      var front, op := ops[..|ops| - 1], ops[|ops| - 1];
      life := SteadyOneLife(front, conn);
      RunNumbered(front);
      assert ops == front + [op];
      if op.Parse? && op.conn == conn && LastParse(front, conn).None? {
        NothingYet(front, conn, life);
        life := Run(front).clock;
      }
      StepOneLife(front, op, conn, life);
    }
  }

  /** Before the first Parse any lifetime will do. */
  lemma NothingYet(ops: seq<Operation>, conn: U64, life: nat)
    requires OneLife(ops, conn, life) && LastParse(ops, conn).None?
    ensures OneLife(ops, conn, 0)
  {
    hide Run;
  }

  lemma StepOneLife(front: seq<Operation>, op: Operation, conn: U64, life: nat)
    requires Steady(front + [op], conn) && Numbered(Run(front))
    requires OneLife(front, conn, life) || (LastParse(front, conn).None? && OneLife(front, conn, 0))
    requires op.Parse? && op.conn == conn && LastParse(front, conn).None? ==> life == Run(front).clock
    requires !(op.Parse? && op.conn == conn && LastParse(front, conn).None?) ==> OneLife(front, conn, life)
    ensures OneLife(front + [op], conn, life)
  {
    hide Count, Rank, Numbers, Emitted, Run, Counted, Next, Fetched;
    var ops := front + [op];
    assert ops[..|ops| - 1] == front && ops[|ops| - 1] == op;
    RunStep(front, op);
    var w, v := Run(front), Run(ops);
    if op.Parse? {
      ParseFacts(w, op);
      assert forall i :: 0 <= i < |w.trace| ==> v.trace[i] == w.trace[i];
    } else {
      assert v.trace == w.trace;
    }
  }

  /**
   The janitor never splits a live connection: if its Parse calls are at most 15 minutes apart and it is
   not closed, then whatever sweeps run in between, its messages are numbered 0, 1, 2, ... per direction
   over the whole run.
   */
  lemma JanitorKeepsNumbering(ops: seq<Operation>, conn: U64, i: nat, j: nat)
    requires Steady(ops, conn)
    requires i < |Run(ops).trace| && j < |Run(ops).trace|
    requires Run(ops).trace[i].conn == conn && Run(ops).trace[j].conn == conn
    ensures Run(ops).trace[i].life == Run(ops).trace[j].life
    ensures Run(ops).trace[i].n == Rank(Run(ops).trace, i) % TWO64
  {
    hide Run, Steady;
    var life := SteadyOneLife(ops, conn);
    RunNumbered(ops);
  }

  // ------------------------------------------------------------------ the table, from the operations alone

  /** What takes a state away that was last stamped at a time. */
  predicate Removes(op: Operation, conn: U64, stamp: int) {
    op == Close(conn) || (op.Evict? && op.conn == conn && stamp < op.now - TTL)
  }

  /** The last Parse of a connection, with nothing since then that took its state away. */
  ghost predicate LeftBy(ops: seq<Operation>, conn: U64, i: int) {
    && 0 <= i < |ops| && ops[i].Parse? && ops[i].conn == conn
    && forall j :: i < j < |ops| ==> !(ops[j].Parse? && ops[j].conn == conn) && !Removes(ops[j], conn, ops[i].now)
  }

  ghost predicate StateLeft(ops: seq<Operation>, conn: U64) {
    exists i :: LeftBy(ops, conn, i)
  }

  /** Messages of one direction counted since the state that is left, or was last, came to be. */
  ghost function Since(ops: seq<Operation>, conn: U64, dir: Dir): nat {
    if ops == [] then 0
    else
      var front, op := ops[..|ops| - 1], ops[|ops| - 1];
      if op.Parse? && op.conn == conn
      then (if StateLeft(front, conn) then Since(front, conn, dir) else 0) + (if op.dir == dir then op.messages else 0)
      else Since(front, conn, dir)
  }

  /** How one more operation changes what is left. */
  lemma LeftByStep(front: seq<Operation>, op: Operation, conn: U64, i: int)
    ensures LeftBy(front + [op], conn, i) <==>
      if op.Parse? && op.conn == conn then i == |front|
      else LeftBy(front, conn, i) && !Removes(op, conn, front[i].now)
  {
    var ops := front + [op];
    assert forall j :: 0 <= j < |front| ==> ops[j] == front[j];
    assert ops[|front|] == op;
  }

  /** No two operations left the same state. */
  lemma LeftByOne(ops: seq<Operation>, conn: U64, i: int, j: int)
    requires LeftBy(ops, conn, i) && LeftBy(ops, conn, j)
    ensures i == j
  {}

  /**
   A connection has a state exactly when it had a Parse, and since the last one no close and no eviction
   with a cutoff past its stamp. The state's stamp is that Parse's, and its counters are the messages
   counted since the state came to be, modulo 2^64.
   */
  lemma {:induction false} TableFromOperations(ops: seq<Operation>, conn: U64)
    ensures conn in Run(ops).table <==> StateLeft(ops, conn)
    ensures forall i :: LeftBy(ops, conn, i) ==> Run(ops).table[conn].lastActivity == ops[i].now
    ensures conn in Run(ops).table ==>
      forall dir: Dir :: Next(Run(ops).table[conn], dir) == Since(ops, conn, dir) % TWO64
  {
    if ops != [] {
      var front, op := ops[..|ops| - 1], ops[|ops| - 1];
      TableFromOperations(front, conn);
      assert ops == front + [op];
      RunStep(front, op);
      forall i ensures LeftBy(ops, conn, i) <==>
        if op.Parse? && op.conn == conn then i == |front|
        else LeftBy(front, conn, i) && !Removes(op, conn, front[i].now)
      {
        LeftByStep(front, op, conn, i);
      }
      hide Run, LeftBy;
      if op.Parse? && op.conn == conn {
        assert LeftBy(ops, conn, |front|);
        ParseCounts(front, op);
      } else {
        OtherLeaves(Run(front), op, conn);
        if StateLeft(front, conn) {
          var i :| LeftBy(front, conn, i);
          assert conn in Run(ops).table <==> !Removes(op, conn, front[i].now);
          OnlyLeft(front, conn, i);
        }
      }
    }
  }

  lemma OnlyLeft(ops: seq<Operation>, conn: U64, i: int)
    requires LeftBy(ops, conn, i)
    ensures forall j :: LeftBy(ops, conn, j) ==> j == i
  {
    forall j | LeftBy(ops, conn, j) ensures j == i { LeftByOne(ops, conn, i, j); }
  }

  /** An operation that is no Parse of the connection takes its state away or leaves it as it is. */
  lemma OtherLeaves(w: World, op: Operation, conn: U64)
    requires !(op.Parse? && op.conn == conn)
    ensures var v := Stepped(w, op);
      && (conn in v.table <==> conn in w.table && !Removes(op, conn, w.table[conn].lastActivity))
      && (conn in v.table ==> v.table[conn] == w.table[conn])
  {}

  /** A Parse adds its messages to the counter of its direction. */
  lemma ParseCounts(front: seq<Operation>, op: Operation)
    requires op.Parse?
    requires op.conn in Run(front).table <==> StateLeft(front, op.conn)
    requires op.conn in Run(front).table ==>
      forall dir: Dir :: Next(Run(front).table[op.conn], dir) == Since(front, op.conn, dir) % TWO64
    ensures var v := Stepped(Run(front), op);
      && op.conn in v.table && v.table[op.conn].lastActivity == op.now
      && forall dir: Dir :: Next(v.table[op.conn], dir) == Since(front + [op], op.conn, dir) % TWO64
  {
    hide Run, StateLeft;
    var t := Run(front).table;
    assert (front + [op])[..|front|] == front && (front + [op])[|front|] == op;
    forall dir: Dir
      ensures Next(Step(t, op)[op.conn], dir) == Since(front + [op], op.conn, dir) % TWO64
    {
      var before := if StateLeft(front, op.conn) then Since(front, op.conn, dir) else 0;
      AddMod(before, op.messages);
    }
  }

  // ------------------------------------------------------------------ a whole connection

  /** Messages of one direction of a connection in a trace, and in the Parse calls that made it. */
  function Total(trace: seq<Event>, conn: U64, dir: Dir): nat {
    if trace == [] then 0
    else
      var e := trace[|trace| - 1];
      Total(trace[..|trace| - 1], conn, dir) + (if e.conn == conn && e.dir == dir then 1 else 0)
  }

  function Parsed(ops: seq<Operation>, conn: U64, dir: Dir): nat {
    if ops == [] then 0
    else
      var op := ops[|ops| - 1];
      Parsed(ops[..|ops| - 1], conn, dir) + (if op.Parse? && op.conn == conn && op.dir == dir then op.messages else 0)
  }

  lemma {:induction false} TotalAppends(trace: seq<Event>, conn: U64, dir: Dir, k: nat, all: bool)
    requires k <= |trace|
    requires forall i :: k <= i < |trace| ==> (trace[i].conn == conn && trace[i].dir == dir <==> all)
    ensures Total(trace, conn, dir) == Total(trace[..k], conn, dir) + (if all then |trace| - k else 0)
    decreases |trace|
  {
    if k < |trace| {
      var front := trace[..|trace| - 1];
      TotalAppends(front, conn, dir, k, all);
      assert front[..k] == trace[..k];
    } else {
      assert trace[..k] == trace;
    }
  }

  lemma {:induction false} TraceTotal(ops: seq<Operation>, conn: U64, dir: Dir)
    ensures Total(Run(ops).trace, conn, dir) == Parsed(ops, conn, dir)
  {
    hide Stepped, Total;
    if ops == [] {
      EmptyTotal(conn, dir);
    } else {
      var front, op := ops[..|ops| - 1], ops[|ops| - 1];
      TraceTotal(front, conn, dir);
      StepTotal(Run(front), op, conn, dir);
    }
  }

  lemma EmptyTotal(conn: U64, dir: Dir)
    ensures Total([], conn, dir) == 0
  {}

  lemma StepTotal(w: World, op: Operation, conn: U64, dir: Dir)
    ensures Total(Stepped(w, op).trace, conn, dir)
         == Total(w.trace, conn, dir) + (if op.Parse? && op.conn == conn && op.dir == dir then op.messages else 0)
  {
    hide Total, Next, Fetched;
    var v := Stepped(w, op);
    if op.Parse? {
      ParseFacts(w, op);
      hide Stepped;
      TotalAppends(v.trace, conn, dir, |w.trace|, op.conn == conn && op.dir == dir);
    } else {
      assert v.trace == w.trace;
    }
  }

  /** While all events of a connection are of one lifetime its totals are the counts of that lifetime. */
  lemma {:induction false} TotalIsCount(trace: seq<Event>, conn: U64, life: nat, dir: Dir)
    requires forall i :: 0 <= i < |trace| && trace[i].conn == conn ==> trace[i].life == life
    ensures Count(trace, conn, life, dir) == Total(trace, conn, dir)
  {
    if trace != [] { TotalIsCount(trace[..|trace| - 1], conn, life, dir); }
  }

  /** A closed connection is not parsed again. */
  ghost predicate ClosedForGood(ops: seq<Operation>, conn: U64) {
    forall p, q :: 0 <= p < q < |ops| && ops[p] == Close(conn) ==> !(ops[q].Parse? && ops[q].conn == conn)
  }

  /** From its first Parse to its close, with timely calls, a connection has one lifetime. */
  lemma {:induction false} OneLifeUntilClosed(ops: seq<Operation>, conn: U64) returns (life: nat)
    requires Timely(ops, conn) && ClosedForGood(ops, conn)
    ensures forall i :: 0 <= i < |Run(ops).trace| && Run(ops).trace[i].conn == conn ==> Run(ops).trace[i].life == life
  {
    hide Stepped, Next, Fetched;
    if Close(conn) !in ops {
      life := SteadyOneLife(ops, conn);
    } else {
      var front, op := ops[..|ops| - 1], ops[|ops| - 1];
      var p :| 0 <= p < |ops| && ops[p] == Close(conn);
      assert !(op.Parse? && op.conn == conn);
      life := OneLifeUntilClosed(front, conn);
      OthersAppend(Run(front), op, conn);
    }
  }

  lemma OthersAppend(w: World, op: Operation, conn: U64)
    requires !(op.Parse? && op.conn == conn)
    ensures var v := Stepped(w, op);
      && |v.trace| >= |w.trace| && v.trace[..|w.trace|] == w.trace
      && forall i :: |w.trace| <= i < |v.trace| ==> v.trace[i].conn != conn
  {
    hide Next, Fetched;
    if op.Parse? { ParseFacts(w, op); } else { assert Stepped(w, op).trace == w.trace; }
  }

  /**
   Over a whole connection, from its first Parse to its close: the k-th request and the k-th response share
   an identifier, and no third message of the connection has it.
   */
  lemma PairsUp(ops: seq<Operation>, conn: U64, k: U64) returns (i: nat, j: nat)
    requires Timely(ops, conn) && ClosedForGood(ops, conn)
    requires k < Parsed(ops, conn, Request) <= TWO64 && k < Parsed(ops, conn, Response) <= TWO64
    ensures var t := Run(ops).trace;
      && i < |t| && t[i].conn == conn && t[i].dir == Request && Rank(t, i) == k
      && j < |t| && t[j].conn == conn && t[j].dir == Response && Rank(t, j) == k
      && Uid(t[i]) == Uid(t[j]) == MakeUid(conn, k)
      && forall m :: 0 <= m < |t| && t[m].conn == conn && Uid(t[m]) == MakeUid(conn, k) ==> m == i || m == j
  {
    hide Run, Count, MakeUid, Parsed, Total, Timely, ClosedForGood;
    var life := OneLifeUntilClosed(ops, conn);
    RunNumbered(ops);
    var t := Run(ops).trace;
    assert t[..|t|] == t;
    TraceTotal(ops, conn, Request);
    TraceTotal(ops, conn, Response);
    TotalIsCount(t, conn, life, Request);
    TotalIsCount(t, conn, life, Response);
    i := RanksDense(t, |t|, conn, life, Request, k);
    j := RanksDense(t, |t|, conn, life, Response, k);
    forall m | 0 <= m < |t| && t[m].conn == conn && Uid(t[m]) == MakeUid(conn, k) ensures m == i || m == j {
      CountGrows(t, m, |t|, conn, life, t[m].dir);
      UidInjective(conn, t[m].n, conn, k);
      SameRankSame(t, m, if t[m].dir.Request? then i else j);
    }
  }

  lemma SameRankSame(trace: seq<Event>, i: nat, j: nat)
    requires i < |trace| && j < |trace| && Rank(trace, i) == Rank(trace, j)
    requires trace[i].conn == trace[j].conn && trace[i].life == trace[j].life && trace[i].dir == trace[j].dir
    ensures i == j
  {
    if i < j { RanksIncrease(trace, i, j); }
    if j < i { RanksIncrease(trace, j, i); }
  }

  // ------------------------------------------------------------------ bodies

  /** A body reader: the bytes it yields, and whether it then fails instead of ending. */
  datatype BodyReader = BodyReader(data: bytes, fails: bool)

  /**
   readBody: the captured bytes, the truncation flag, and how much of the reader was consumed. The reader
   is always drained; the flag means that the body was longer than what was captured, except that with
   capture switched off it is never set. A read that fails short of the limit has captured all there was.
   */
  method ReadBody(r: BodyReader, maxBodyBytes: nat) returns (body: bytes, truncated: bool, consumed: nat)
    ensures body == if |r.data| <= maxBodyBytes then r.data else r.data[..maxBodyBytes]
    ensures consumed == |r.data|
    ensures maxBodyBytes > 0 || r.data == [] ==> (truncated <==> |body| < |r.data|)
    ensures maxBodyBytes == 0 ==> !truncated
  {
    if maxBodyBytes == 0 { return [], false, |r.data|; }
    var limit := maxBodyBytes + 1;
    var buf := if |r.data| < limit then r.data else r.data[..limit];
    if |r.data| < limit && r.fails { return buf, false, |buf|; }
    if |buf| > maxBodyBytes { return buf[..maxBodyBytes], true, |r.data|; }
    return buf, false, |buf|;
  }
}
