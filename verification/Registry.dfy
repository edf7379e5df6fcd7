/** The parser registry: internal/protocol/registry.go, and the fallback of internal/protocol/unknown/parser.go. */
module Registry {
  import opened Common
  import opened Decimal

  type Port = p: int | 0 <= p < 0x1_0000

  /** What the registry uses of a parser. */
  datatype Parser = Parser(name: string, ports: seq<Port>, probe: (bytes, bool) -> int)

  function Times(ports: seq<Port>, port: Port): nat {
    if ports == [] then 0 else Times(ports[..|ports| - 1], port) + (if ports[|ports| - 1] == port then 1 else 0)
  }

  function Copies(p: Parser, n: nat): (ps: seq<Parser>)
    ensures |ps| == n && forall i :: 0 <= i < n ==> ps[i] == p
  {
    if n == 0 then [] else Copies(p, n - 1) + [p]
  }

  /** The index entry of a port after a history of registrations: one copy for each mention of the port. */
  function Indexed(all: seq<Parser>, port: Port): seq<Parser> {
    if all == [] then []
    else Indexed(all[..|all| - 1], port) + Copies(all[|all| - 1], Times(all[|all| - 1].ports, port))
  }

  /** The scan: the parsers that list the port, in registration order. */
  function Scanned(all: seq<Parser>, port: Port): seq<Parser> {
    if all == [] then []
    else Scanned(all[..|all| - 1], port) + (if port in all[|all| - 1].ports then [all[|all| - 1]] else [])
  }

  function ByIndex(all: seq<Parser>): Port -> seq<Parser> { (port: Port) => Indexed(all, port) }

  function ByScan(all: seq<Parser>): Port -> seq<Parser> { (port: Port) => Scanned(all, port) }

  /** One more mention of a port appends one copy to that port's entry and leaves the others. */
  lemma MentionAppends(p: Parser, ports: seq<Port>, i: nat, port: Port)
    requires i < |ports|
    ensures Copies(p, Times(ports[..i + 1], port))
         == Copies(p, Times(ports[..i], port)) + (if port == ports[i] then [p] else [])
  {
    assert ports[..i + 1][..i] == ports[..i];
  }

  lemma NoMention(p: Parser, port: Port)
    ensures Copies(p, Times([], port)) == []
  {}

  lemma IndexedSnoc(before: seq<Parser>, p: Parser, port: Port)
    ensures Indexed(before + [p], port) == Indexed(before, port) + Copies(p, Times(p.ports, port))
  {
    assert (before + [p])[..|before|] == before;
  }

  ghost predicate ListedOnce(all: seq<Parser>, port: Port) {
    forall i :: 0 <= i < |all| ==> Times(all[i].ports, port) <= 1
  }

  lemma {:induction false} TimesZero(ports: seq<Port>, port: Port)
    ensures Times(ports, port) == 0 <==> port !in ports
  {
    if ports != [] {
      TimesZero(ports[..|ports| - 1], port);
      assert ports == ports[..|ports| - 1] + [ports[|ports| - 1]];
    }
  }

  lemma {:induction false} IndexAtLeastScan(all: seq<Parser>, port: Port)
    ensures |Indexed(all, port)| >= |Scanned(all, port)|
  {
    if all != [] {
      IndexAtLeastScan(all[..|all| - 1], port);
      TimesZero(all[|all| - 1].ports, port);
    }
  }

  /** The index agrees with a scan of all parsers exactly when no parser lists the port twice. */
  lemma {:induction false} IndexIsScan(all: seq<Parser>, port: Port)
    ensures Indexed(all, port) == Scanned(all, port) <==> ListedOnce(all, port)
  {
    if all != [] {
      var front, p := all[..|all| - 1], all[|all| - 1];
      IndexIsScan(front, port);
      IndexAtLeastScan(front, port);
      TimesZero(p.ports, port);
      assert ListedOnce(all, port) <==> ListedOnce(front, port) && Times(p.ports, port) <= 1;
      if Times(p.ports, port) == 1 { assert Copies(p, 1) == [p]; }
      if Indexed(all, port) == Scanned(all, port) {
        assert |Indexed(front, port)| == |Scanned(front, port)|;
        assert Indexed(front, port) == Indexed(all, port)[..|Indexed(front, port)|];
        assert Scanned(front, port) == Scanned(all, port)[..|Scanned(front, port)|];
      }
    }
  }

  // ------------------------------------------------------------------ probing

  /** Position of the winner of bestProbe: the earliest among the highest positive scores. */
  function Best(ps: seq<Parser>, sample: bytes, fromClient: bool): (best: Option<nat>)
    ensures best.Some? ==> best.value < |ps| && ps[best.value].probe(sample, fromClient) > 0
  {
    if ps == [] then None
    else
      var last := |ps| - 1;
      var before := Best(ps[..last], sample, fromClient);
      var score := ps[last].probe(sample, fromClient);
      if score > (if before.None? then 0 else ps[before.value].probe(sample, fromClient)) then Some(last) else before
  }

  ghost predicate NoneClaims(ps: seq<Parser>, sample: bytes, fromClient: bool) {
    forall i :: 0 <= i < |ps| ==> ps[i].probe(sample, fromClient) <= 0
  }

  ghost predicate EarliestMaximum(ps: seq<Parser>, i: nat, sample: bytes, fromClient: bool) {
    && i < |ps| && ps[i].probe(sample, fromClient) > 0
    && (forall j :: 0 <= j < i ==> ps[j].probe(sample, fromClient) < ps[i].probe(sample, fromClient))
    && (forall j :: i < j < |ps| ==> ps[j].probe(sample, fromClient) <= ps[i].probe(sample, fromClient))
  }

  lemma EarliestMaximumUnique(ps: seq<Parser>, i: nat, j: nat, sample: bytes, fromClient: bool)
    requires EarliestMaximum(ps, i, sample, fromClient) && EarliestMaximum(ps, j, sample, fromClient)
    ensures i == j
  {
    var u, v := ps[i].probe(sample, fromClient), ps[j].probe(sample, fromClient);
    assert i < j ==> u < v && v <= u;
    assert j < i ==> v < u && u <= v;
  }

  /** Best is None exactly when nobody claims the data, and else picks the earliest maximum. */
  lemma {:induction false} BestStands(ps: seq<Parser>, sample: bytes, fromClient: bool)
    ensures var best := Best(ps, sample, fromClient);
      && (best.None? <==> NoneClaims(ps, sample, fromClient))
      && (best.Some? ==> EarliestMaximum(ps, best.value, sample, fromClient))
  {
    if ps != [] {
      var last := |ps| - 1;
      var front := ps[..last];
      BestStands(front, sample, fromClient);
      var before := Best(front, sample, fromClient);
      assert forall j :: 0 <= j < last ==> ps[j] == front[j];
      var score := ps[last].probe(sample, fromClient);
      if before.Some? {
        var top := ps[before.value].probe(sample, fromClient);
        assert forall j :: 0 <= j < last ==> front[j].probe(sample, fromClient) <= top;
      } else {
        assert forall j :: 0 <= j < last ==> front[j].probe(sample, fromClient) <= 0;
      }
    }
  }

  /** The earliest parser of maximal positive score wins, and none exactly when no score is positive. */
  lemma BestIsEarliestMaximum(ps: seq<Parser>, sample: bytes, fromClient: bool)
    ensures Best(ps, sample, fromClient).None? <==> NoneClaims(ps, sample, fromClient)
    ensures forall i: nat :: Best(ps, sample, fromClient) == Some(i) <==> EarliestMaximum(ps, i, sample, fromClient)
  {
    BestStands(ps, sample, fromClient);
    forall i: nat | EarliestMaximum(ps, i, sample, fromClient) ensures Best(ps, sample, fromClient) == Some(i) {
      assert !NoneClaims(ps, sample, fromClient);
      EarliestMaximumUnique(ps, i, Best(ps, sample, fromClient).value, sample, fromClient);
    }
  }

  function Pick(ps: seq<Parser>, i: Option<nat>): Option<Parser>
    requires i.Some? ==> i.value < |ps|
  {
    if i.None? then None else Some(ps[i.value])
  }

  /** One candidate wins unprobed, several are probed; None when the list is empty. */
  function Among(ps: seq<Parser>, sample: bytes, fromClient: bool): Option<Parser> {
    if |ps| == 1 then Some(ps[0]) else Pick(ps, Best(ps, sample, fromClient))
  }

  /** Resolve over any way of finding the parsers of a port. */
  function ResolvedBy(
    at: Port -> seq<Parser>, all: seq<Parser>, src: Port, dst: Port, sample: bytes, fromClient: bool): Option<Parser>
  {
    if |at(dst)| > 0 then Among(at(dst), sample, fromClient)
    else if |at(src)| > 0 then Among(at(src), sample, fromClient)
    else Pick(all, Best(all, sample, fromClient))
  }

  // ------------------------------------------------------------------ the registry

  class Registry {
    var byPort: map<Port, seq<Parser>>
    var all: seq<Parser>

    ghost predicate Valid()
      reads this
    {
      forall port: Port :: Candidates(port) == Indexed(all, port)
    }

    /** A lookup in a Go map: the zero value, an empty slice, for a missing key. */
    function Candidates(port: Port): seq<Parser>
      reads this
    {
      if port in byPort then byPort[port] else []
    }

    constructor ()
      ensures Valid() && all == []
    {
      byPort, all := map[], [];
    }

    method Register(p: Parser)
      requires Valid()
      modifies this
      ensures Valid() && all == old(all) + [p]
    {
      hide Indexed, Times, Copies;
      ghost var before := all;
      all := all + [p];
      assert p.ports[..0] == [];
      forall q: Port ensures Copies(p, Times([], q)) == [] { NoMention(p, q); }
      for i := 0 to |p.ports|
        invariant all == before + [p]
        invariant forall port: Port :: Candidates(port) == Indexed(before, port) + Copies(p, Times(p.ports[..i], port))
      {
        var port := p.ports[i];
        forall q: Port
          ensures Copies(p, Times(p.ports[..i + 1], q))
               == Copies(p, Times(p.ports[..i], q)) + (if q == port then [p] else [])
        {
          MentionAppends(p, p.ports, i, q);
        }
        byPort := byPort[port := Candidates(port) + [p]];
      }
      assert p.ports[..|p.ports|] == p.ports;
      forall port: Port ensures Indexed(all, port) == Indexed(before, port) + Copies(p, Times(p.ports, port)) {
        IndexedSnoc(before, p, port);
      }
    }

    method BestProbe(ps: seq<Parser>, sample: bytes, fromClient: bool) returns (best: Option<Parser>)
      ensures best == Pick(ps, Best(ps, sample, fromClient))
    {
      best := None;
      var bestScore := 0;
      for i := 0 to |ps|
        invariant best == Pick(ps[..i], Best(ps[..i], sample, fromClient))
        invariant bestScore == if best.None? then 0 else best.value.probe(sample, fromClient)
      {
        assert ps[..i + 1][..i] == ps[..i];
        var s := ps[i].probe(sample, fromClient);
        if s > bestScore { bestScore, best := s, Some(ps[i]); }
      }
      assert ps[..|ps|] == ps;
    }

    method Resolve(src: Port, dst: Port, sample: bytes, fromClient: bool) returns (r: Option<Parser>)
      requires Valid()
      ensures r == ResolvedBy(ByIndex(all), all, src, dst, sample, fromClient)
    {
      var candidates := Candidates(dst);
      if |candidates| == 1 { return Some(candidates[0]); }
      if |candidates| > 1 { r := BestProbe(candidates, sample, fromClient); return; }
      candidates := Candidates(src);
      if |candidates| == 1 { return Some(candidates[0]); }
      if |candidates| > 1 { r := BestProbe(candidates, sample, fromClient); return; }
      r := BestProbe(all, sample, fromClient);
    }
  }

  /** With ports listed once, resolution by index and resolution by scan are the same. */
  lemma ResolveByScan(all: seq<Parser>, src: Port, dst: Port, sample: bytes, fromClient: bool)
    requires ListedOnce(all, src) && ListedOnce(all, dst)
    ensures ResolvedBy(ByIndex(all), all, src, dst, sample, fromClient)
         == ResolvedBy(ByScan(all), all, src, dst, sample, fromClient)
  {
    IndexIsScan(all, src);
    IndexIsScan(all, dst);
  }

  /**
   Exactly when nothing is resolved: a port shared by several parsers none of which claims the data is
   enough, whatever the other registered parsers would say.
   */
  lemma ResolvesToNothing(
    at: Port -> seq<Parser>, all: seq<Parser>, src: Port, dst: Port, sample: bytes, fromClient: bool)
    ensures ResolvedBy(at, all, src, dst, sample, fromClient).None? <==>
      if |at(dst)| > 0 then |at(dst)| > 1 && NoneClaims(at(dst), sample, fromClient)
      else if |at(src)| > 0 then |at(src)| > 1 && NoneClaims(at(src), sample, fromClient)
      else NoneClaims(all, sample, fromClient)
  {
    BestIsEarliestMaximum(at(dst), sample, fromClient);
    BestIsEarliestMaximum(at(src), sample, fromClient);
    BestIsEarliestMaximum(all, sample, fromClient);
  }

  /**
   Exactly what is resolved: the only parser of the destination port, unprobed, or the earliest of those of
   it that score highest; without one on it the same for the source port; without one there the earliest
   highest score of all.
   */
  lemma ResolvesExactly(
    at: Port -> seq<Parser>, all: seq<Parser>, src: Port, dst: Port, sample: bytes, fromClient: bool, p: Parser)
    ensures ResolvedBy(at, all, src, dst, sample, fromClient) == Some(p) <==>
      if |at(dst)| == 1 then p == at(dst)[0]
      else if |at(dst)| > 1 then Wins(at(dst), p, sample, fromClient)
      else if |at(src)| == 1 then p == at(src)[0]
      else if |at(src)| > 1 then Wins(at(src), p, sample, fromClient)
      else Wins(all, p, sample, fromClient)
  {
    hide Best, NoneClaims, EarliestMaximum;
    WinsExactly(at(dst), p, sample, fromClient);
    WinsExactly(at(src), p, sample, fromClient);
    WinsExactly(all, p, sample, fromClient);
  }

  ghost predicate Wins(ps: seq<Parser>, p: Parser, sample: bytes, fromClient: bool) {
    exists i: nat :: EarliestMaximum(ps, i, sample, fromClient) && ps[i] == p
  }

  lemma WinsExactly(ps: seq<Parser>, p: Parser, sample: bytes, fromClient: bool)
    ensures Pick(ps, Best(ps, sample, fromClient)) == Some(p) <==> Wins(ps, p, sample, fromClient)
  {
    BestIsEarliestMaximum(ps, sample, fromClient);
    var best := Best(ps, sample, fromClient);
    hide Best;
    if best.Some? { assert EarliestMaximum(ps, best.value, sample, fromClient); }
  }

  /** The fallback parser: no ports, score 1 for anything non-empty. */
  function UnknownProbe(sample: bytes, fromClient: bool): int { if sample == [] then 0 else 1 }

  const UNKNOWN: Parser := Parser("unknown", [], UnknownProbe)

  /**
   With the fallback registered last, a non-empty sample on two unregistered ports always resolves, and
   to the fallback exactly when every other parser scores 0.
   */
  lemma FallbackLast(others: seq<Parser>, src: Port, dst: Port, sample: bytes, fromClient: bool)
    requires sample != [] && forall i :: 0 <= i < |others| ==> src !in others[i].ports && dst !in others[i].ports
    ensures var all := others + [UNKNOWN];
      && ResolvedBy(ByIndex(all), all, src, dst, sample, fromClient)
         == Pick(all, Best(all, sample, fromClient))
      && Best(all, sample, fromClient).Some?
      && (Best(all, sample, fromClient) == Some(|others|) <==> NoneClaims(others, sample, fromClient))
  {
    hide Best, Indexed;
    var all := others + [UNKNOWN];
    NotIndexed(all, src);
    NotIndexed(all, dst);
    assert all[|others|].probe(sample, fromClient) == 1;
    BestIsEarliestMaximum(all, sample, fromClient);
    assert forall i :: 0 <= i < |others| ==> all[i] == others[i];
    assert EarliestMaximum(all, |others|, sample, fromClient) <==> NoneClaims(others, sample, fromClient);
  }

  lemma {:induction false} NotIndexed(all: seq<Parser>, port: Port)
    requires forall i :: 0 <= i < |all| ==> port !in all[i].ports
    ensures Indexed(all, port) == []
  {
    if all != [] {
      NotIndexed(all[..|all| - 1], port);
      TimesZero(all[|all| - 1].ports, port);
    }
  }

  // ------------------------------------------------------------------ the registry as it is built

  ghost predicate Shared(all: seq<Parser>, port: Port) {
    exists i, j :: 0 <= i < j < |all| && port in all[i].ports && port in all[j].ports
  }

  ghost predicate Listed(all: seq<Parser>, port: Port) {
    exists i :: 0 <= i < |all| && port in all[i].ports
  }

  /** The scan has an entry exactly when some parser lists the port, and several exactly when two do. */
  lemma {:induction false} ScanCounts(all: seq<Parser>, port: Port)
    ensures Scanned(all, port) != [] <==> Listed(all, port)
    ensures |Scanned(all, port)| > 1 <==> Shared(all, port)
  {
    if all != [] {
      var last := |all| - 1;
      var front := all[..last];
      ScanCounts(front, port);
      assert Listed(all, port) <==> Listed(front, port) || port in all[last].ports by {
        assert forall i :: 0 <= i < last ==> all[i] == front[i];
      }
      assert Shared(all, port) <==> Shared(front, port) || (Listed(front, port) && port in all[last].ports) by {
        assert forall i :: 0 <= i < last ==> all[i] == front[i];
      }
    }
  }

  /** What each parser's Ports() returns, in the order buildRegistry registers the parsers; the fallback is the 15th. */
  function WiredPorts(i: nat): seq<Port> {
    match i
    case 0 => [80, 8080, 8000, 8888, 3000]
    case 1 => [53, 5353]
    case 2 => [443, 8443, 993, 995, 465, 636]
    case 3 => [3306, 33060]
    case 4 => [5432]
    case 5 => [6379, 6380]
    case 6 => [27017, 27018, 27019]
    case 7 => [25, 587]
    case 8 => [21]
    case 9 => [143, 993]
    case 10 => [110, 995]
    case 11 => [1883, 8883]
    case 12 => [80, 443, 8080]
    case 13 => [22]
    case _ => []
  }

  ghost predicate Wired(all: seq<Parser>) {
    |all| == 15 && all[14] == UNKNOWN && forall i :: 0 <= i < 14 ==> all[i].ports == WiredPorts(i)
  }

  /** HTTP and WebSocket share 80 and 8080, TLS and WebSocket 443, TLS and IMAP 993, TLS and POP3 995; that is all. */
  lemma WiredShared(all: seq<Parser>, port: Port)
    requires Wired(all)
    ensures Shared(all, port) <==> port in {80, 8080, 443, 993, 995}
  {
    assert all[0].ports == WiredPorts(0) && all[2].ports == WiredPorts(2) && all[9].ports == WiredPorts(9);
    assert all[10].ports == WiredPorts(10) && all[12].ports == WiredPorts(12);
    forall i, j | 0 <= i < j < 15 && port in all[i].ports && port in all[j].ports
      ensures port in {80, 8080, 443, 993, 995}
    {
      WiredPair(i, j, port);
    }
  }

  lemma WiredPair(i: nat, j: nat, port: Port)
    requires i < j < 15 && port in WiredPorts(i) && port in WiredPorts(j)
    ensures port in {80, 8080, 443, 993, 995}
  {}

  lemma WiredListedOnce(all: seq<Parser>, port: Port)
    requires Wired(all)
    ensures ListedOnce(all, port)
  {
    forall i | 0 <= i < |all| ensures Times(all[i].ports, port) <= 1 {
      TimesOfDistinct(all[i].ports, port);
    }
  }

  lemma {:induction false} TimesOfDistinct(ports: seq<Port>, port: Port)
    requires forall i, j :: 0 <= i < j < |ports| ==> ports[i] != ports[j]
    ensures Times(ports, port) <= 1
  {
    if ports != [] {
      TimesOfDistinct(ports[..|ports| - 1], port);
      TimesZero(ports[..|ports| - 1], port);
    }
  }

  /**
   The registry as built: data is left without a parser exactly on one of the five shared ports when
   neither of its parsers claims it, or when the data is empty and no port is listed and nobody claims it.
   The fallback is no help on a shared port.
   */
  lemma WiredResolvesToNothing(all: seq<Parser>, src: Port, dst: Port, sample: bytes, fromClient: bool)
    requires Wired(all)
    ensures var port := if Listed(all, dst) then dst else src;
      ResolvedBy(ByIndex(all), all, src, dst, sample, fromClient).None? <==>
        if Listed(all, port) then
          port in {80, 8080, 443, 993, 995} && NoneClaims(Scanned(all, port), sample, fromClient)
        else NoneClaims(all, sample, fromClient)
    ensures NoneClaims(all, sample, fromClient) ==> sample == []
  {
    WiredListedOnce(all, src);
    WiredListedOnce(all, dst);
    ResolveByScan(all, src, dst, sample, fromClient);
    ResolvesToNothing(ByScan(all), all, src, dst, sample, fromClient);
    ScanCounts(all, src);
    ScanCounts(all, dst);
    WiredShared(all, src);
    WiredShared(all, dst);
    assert all[14].probe(sample, fromClient) == UnknownProbe(sample, fromClient);
  }

  // ------------------------------------------------------------------ registration order

  /** No two different parsers share the highest positive score. */
  ghost predicate NoTie(ps: seq<Parser>, sample: bytes, fromClient: bool) {
    forall i, j :: Tops(ps, i, sample, fromClient) && Tops(ps, j, sample, fromClient) ==> ps[i] == ps[j]
  }

  /** A position whose positive score no other exceeds. */
  ghost predicate Tops(ps: seq<Parser>, i: int, sample: bytes, fromClient: bool) {
    && 0 <= i < |ps| && ps[i].probe(sample, fromClient) > 0
    && forall j :: 0 <= j < |ps| ==> ps[j].probe(sample, fromClient) <= ps[i].probe(sample, fromClient)
  }

  function Winner(ps: seq<Parser>, sample: bytes, fromClient: bool): Option<Parser> {
    Pick(ps, Best(ps, sample, fromClient))
  }

  /** The winner has a top position, and every top position is beaten by none, so a sole top parser wins. */
  lemma WinnerTops(ps: seq<Parser>, sample: bytes, fromClient: bool)
    ensures var best := Best(ps, sample, fromClient);
      && (best.Some? ==> Tops(ps, best.value, sample, fromClient))
      && (best.None? ==> forall i :: !Tops(ps, i, sample, fromClient))
  {
    BestStands(ps, sample, fromClient);
  }

  lemma SameWinner(ps: seq<Parser>, qs: seq<Parser>, sample: bytes, fromClient: bool)
    requires multiset(ps) == multiset(qs) && NoTie(ps, sample, fromClient)
    ensures Winner(ps, sample, fromClient) == Winner(qs, sample, fromClient)
  {
    hide Best;
    WinnerTops(ps, sample, fromClient);
    WinnerTops(qs, sample, fromClient);
    var b, c := Best(ps, sample, fromClient), Best(qs, sample, fromClient);
    if b.Some? { var _ := TopsElsewhere(ps, qs, b.value, sample, fromClient); }
    if c.Some? {
      var i := TopsElsewhere(qs, ps, c.value, sample, fromClient);
      assert b.Some? && Tops(ps, b.value, sample, fromClient);
    }
  }

  /** A top parser is a top parser of every reordering. */
  lemma TopsElsewhere(ps: seq<Parser>, qs: seq<Parser>, i: nat, sample: bytes, fromClient: bool) returns (j: nat)
    requires multiset(ps) == multiset(qs) && Tops(ps, i, sample, fromClient)
    ensures Tops(qs, j, sample, fromClient) && qs[j] == ps[i]
  {
    assert ps[i] in multiset(ps);
    j :| 0 <= j < |qs| && qs[j] == ps[i];
    forall k | 0 <= k < |qs| ensures qs[k].probe(sample, fromClient) <= qs[j].probe(sample, fromClient) {
      assert qs[k] in multiset(qs);
      var m :| 0 <= m < |ps| && ps[m] == qs[k];
    }
  }

  /** A top parser moved to the front wins. */
  lemma FrontWins(ps: seq<Parser>, sample: bytes, fromClient: bool)
    requires Tops(ps, 0, sample, fromClient)
    ensures Winner(ps, sample, fromClient) == Some(ps[0])
  {
    BestIsEarliestMaximum(ps, sample, fromClient);
    assert EarliestMaximum(ps, 0, sample, fromClient);
  }

  /** A registration history with the parser at a position moved to the front. */
  function ToFront(all: seq<Parser>, k: nat): (r: seq<Parser>)
    requires k < |all|
    ensures multiset(r) == multiset(all)
  {
    assert all == all[..k] + [all[k]] + all[k + 1..];
    [all[k]] + all[..k] + all[k + 1..]
  }

  /** An index entry holds each parser as often as it was registered times as often as it lists the port. */
  lemma {:induction false} IndexedCount(all: seq<Parser>, port: Port, p: Parser)
    ensures multiset(Indexed(all, port))[p] == multiset(all)[p] * Times(p.ports, port)
  {
    hide Times, Copies;
    if all == [] {
      assert multiset(all)[p] == 0;
    } else {
      var front, last := all[..|all| - 1], all[|all| - 1];
      IndexedCount(front, port, p);
      assert all == front + [last];
      assert Indexed(all, port) == Indexed(front, port) + Copies(last, Times(last.ports, port));
      hide Indexed;
      CopiesCount(last, Times(last.ports, port), p);
      var n := multiset(front)[p];
      if last == p {
        OneMoreTime(n, Times(p.ports, port));
        assert multiset(all)[p] == n + 1;
      } else {
        assert multiset(all)[p] == n;
      }
    }
  }

  lemma OneMoreTime(n: nat, times: nat)
    ensures (n + 1) * times == n * times + times
  {}

  lemma {:induction false} CopiesCount(p: Parser, n: nat, q: Parser)
    ensures multiset(Copies(p, n))[q] == if p == q then n else 0
  {
    if n > 0 { CopiesCount(p, n - 1, q); }
  }

  lemma IndexedReordered(all: seq<Parser>, other: seq<Parser>, port: Port)
    requires multiset(all) == multiset(other)
    ensures multiset(Indexed(all, port)) == multiset(Indexed(other, port))
    ensures |Indexed(all, port)| == |Indexed(other, port)|
  {
    forall p ensures multiset(Indexed(all, port))[p] == multiset(Indexed(other, port))[p] {
      IndexedCount(all, port, p);
      IndexedCount(other, port, p);
    }
    assert |Indexed(all, port)| == |multiset(Indexed(all, port))|;
    assert |Indexed(other, port)| == |multiset(Indexed(other, port))|;
  }

  /** The parser registered first is first in the entries of its ports. */
  lemma {:induction false} FirstIndexedFirst(all: seq<Parser>, port: Port)
    requires all != [] && port in all[0].ports
    ensures Indexed(all, port) != [] && Indexed(all, port)[0] == all[0]
  {
    var front := all[..|all| - 1];
    if front == [] {
      TimesZero(all[0].ports, port);
    } else {
      FirstIndexedFirst(front, port);
    }
  }

  /** The parsers among which Resolve chooses. */
  function Contenders(all: seq<Parser>, src: Port, dst: Port): seq<Parser> {
    if |Indexed(all, dst)| > 0 then Indexed(all, dst)
    else if |Indexed(all, src)| > 0 then Indexed(all, src)
    else all
  }

  function Resolved(all: seq<Parser>, src: Port, dst: Port, sample: bytes, fromClient: bool): Option<Parser> {
    ResolvedBy(ByIndex(all), all, src, dst, sample, fromClient)
  }

  lemma ResolvedAmong(all: seq<Parser>, src: Port, dst: Port, sample: bytes, fromClient: bool)
    ensures var ps := Contenders(all, src, dst);
      Resolved(all, src, dst, sample, fromClient)
      == if |ps| == 1 && (|Indexed(all, dst)| > 0 || |Indexed(all, src)| > 0) then Some(ps[0])
         else Winner(ps, sample, fromClient)
  {
    hide Best, Indexed;
  }

  lemma ContendersReordered(all: seq<Parser>, other: seq<Parser>, src: Port, dst: Port)
    requires multiset(all) == multiset(other)
    ensures multiset(Contenders(all, src, dst)) == multiset(Contenders(other, src, dst))
    ensures |Contenders(all, src, dst)| == |Contenders(other, src, dst)|
    ensures |Indexed(all, dst)| > 0 <==> |Indexed(other, dst)| > 0
    ensures |Indexed(all, src)| > 0 <==> |Indexed(other, src)| > 0
  {
    hide Indexed;
    IndexedReordered(all, other, src);
    IndexedReordered(all, other, dst);
    assert |all| == |multiset(all)| && |other| == |multiset(other)|;
  }

  ghost predicate OrderIrrelevant(all: seq<Parser>, src: Port, dst: Port, sample: bytes, fromClient: bool) {
    forall other :: multiset(other) == multiset(all) ==>
      Resolved(other, src, dst, sample, fromClient) == Resolved(all, src, dst, sample, fromClient)
  }

  lemma NoTieOrderIrrelevant(
    all: seq<Parser>, other: seq<Parser>, src: Port, dst: Port, sample: bytes, fromClient: bool)
    requires multiset(other) == multiset(all) && NoTie(Contenders(all, src, dst), sample, fromClient)
    ensures Resolved(other, src, dst, sample, fromClient) == Resolved(all, src, dst, sample, fromClient)
  {
    hide Indexed, Contenders, Winner, Resolved, NoTie;
    ContendersReordered(all, other, src, dst);
    ResolvedAmong(all, src, dst, sample, fromClient);
    ResolvedAmong(other, src, dst, sample, fromClient);
    var ps, qs := Contenders(all, src, dst), Contenders(other, src, dst);
    SameWinner(ps, qs, sample, fromClient);
    if |ps| == 1 { assert ps[0] in multiset(qs); }
  }

  lemma IndexedListsPort(all: seq<Parser>, port: Port, p: Parser)
    requires p in Indexed(all, port)
    ensures p in all && port in p.ports
  {
    assert p in multiset(Indexed(all, port));
    IndexedCount(all, port, p);
    TimesZero(p.ports, port);
    assert p in multiset(all) by {
      assert multiset(all)[p] == 0 ==> multiset(all)[p] * Times(p.ports, port) == 0;
    }
  }

  /** A contender is registered somewhere; moved to the front it is the first contender. */
  lemma ContenderToFront(all: seq<Parser>, src: Port, dst: Port, i: nat) returns (k: nat)
    requires i < |Contenders(all, src, dst)|
    ensures k < |all| && all[k] == Contenders(all, src, dst)[i]
    ensures var qs := Contenders(ToFront(all, k), src, dst); qs != [] && qs[0] == all[k]
  {
    hide Indexed;
    var p := Contenders(all, src, dst)[i];
    if |Indexed(all, dst)| > 0 { IndexedListsPort(all, dst, p); }
    else if |Indexed(all, src)| > 0 { IndexedListsPort(all, src, p); }
    k :| 0 <= k < |all| && all[k] == p;
    ContendersReordered(all, ToFront(all, k), src, dst);
    if |Indexed(all, dst)| > 0 { FirstIndexedFirst(ToFront(all, k), dst); }
    else if |Indexed(all, src)| > 0 { FirstIndexedFirst(ToFront(all, k), src); }
  }

  /** With a tie some other order of registration resolves to another parser. */
  lemma TieOrderMatters(all: seq<Parser>, src: Port, dst: Port, i: nat, sample: bytes, fromClient: bool)
    requires var ps := Contenders(all, src, dst);
      && |ps| > 1 && Tops(ps, i, sample, fromClient) && Some(ps[i]) != Winner(ps, sample, fromClient)
    ensures !OrderIrrelevant(all, src, dst, sample, fromClient)
  {
    hide Indexed, Contenders, Winner, Resolved;
    var ps := Contenders(all, src, dst);
    var k := ContenderToFront(all, src, dst, i);
    var other := ToFront(all, k);
    var qs := Contenders(other, src, dst);
    ContendersReordered(all, other, src, dst);
    var j := TopsElsewhere(ps, qs, i, sample, fromClient);
    assert Tops(qs, 0, sample, fromClient);
    FrontWins(qs, sample, fromClient);
    ResolvedAmong(all, src, dst, sample, fromClient);
    ResolvedAmong(other, src, dst, sample, fromClient);
    assert Resolved(other, src, dst, sample, fromClient) != Resolved(all, src, dst, sample, fromClient);
  }

  /**
   Registration order does not matter exactly when no two different parsers share the highest positive
   score among the contenders: the parsers of the destination port, else of the source port, else all.
   */
  lemma OrderIrrelevantExactly(all: seq<Parser>, src: Port, dst: Port, sample: bytes, fromClient: bool)
    ensures OrderIrrelevant(all, src, dst, sample, fromClient) <==> NoTie(Contenders(all, src, dst), sample, fromClient)
  {
    hide Indexed, Contenders, Resolved, Best;
    var ps := Contenders(all, src, dst);
    if NoTie(ps, sample, fromClient) {
      forall other | multiset(other) == multiset(all)
        ensures Resolved(other, src, dst, sample, fromClient) == Resolved(all, src, dst, sample, fromClient)
      {
        NoTieOrderIrrelevant(all, other, src, dst, sample, fromClient);
      }
    } else {
      var i, j :| Tops(ps, i, sample, fromClient) && Tops(ps, j, sample, fromClient) && ps[i] != ps[j];
      var k := if Some(ps[i]) != Winner(ps, sample, fromClient) then i else j;
      TieOrderMatters(all, src, dst, k, sample, fromClient);
    }
  }

  // ------------------------------------------------------------------ two parsers that tie

  ghost predicate StartsWithAny(sample: bytes, prefixes: seq<bytes>) {
    exists i :: 0 <= i < |prefixes| && prefixes[i] <= sample
  }

  const GREETING: bytes := [50, 50, 48, 32] // "220 "
  const SMTP_PREFIXES: seq<bytes> := [
    GREETING, [69, 72, 76, 79, 32], [72, 69, 76, 79, 32], // "EHLO ", "HELO "
    [77, 65, 73, 76, 32, 70, 82, 79, 77, 58], [82, 67, 80, 84, 32, 84, 79, 58] // "MAIL FROM:", "RCPT TO:"
  ]
  const FTP_PREFIXES: seq<bytes> := [
    GREETING, [85, 83, 69, 82, 32], [80, 65, 83, 83, 32], // "USER ", "PASS "
    [76, 73, 83, 84], [82, 69, 84, 82], [83, 84, 79, 82] // "LIST", "RETR", "STOR"
  ]

  ghost function SmtpProbe(sample: bytes, fromClient: bool): int {
    if |sample| < 4 then 0
    else if StartsWithAny(sample, SMTP_PREFIXES) then 90
    else if (sample[3] == 32 || sample[3] == 45) && Atoi(sample[..3]).Some? then 60
    else 0
  }

  ghost function FtpProbe(sample: bytes, fromClient: bool): int {
    if |sample| >= 3 && StartsWithAny(sample, FTP_PREFIXES) then 90 else 0
  }

  lemma GreetingScores(rest: bytes, fromClient: bool)
    ensures SmtpProbe(GREETING + rest, fromClient) == 90 && FtpProbe(GREETING + rest, fromClient) == 90
  {
    assert SMTP_PREFIXES[0] <= GREETING + rest && FTP_PREFIXES[0] <= GREETING + rest;
  }

  /**
   SMTP and FTP score the same on a "220 " greeting: with these two and the fallback alone, and unlisted
   ports, whichever is registered first gets it.
   */
  lemma GreetingTie(smtp: Parser, ftp: Parser, rest: bytes, src: Port, dst: Port, fromClient: bool)
    requires smtp.ports == WiredPorts(7) && ftp.ports == WiredPorts(8)
    requires smtp.probe(GREETING + rest, fromClient) == SmtpProbe(GREETING + rest, fromClient)
    requires ftp.probe(GREETING + rest, fromClient) == FtpProbe(GREETING + rest, fromClient)
    requires src !in {21, 25, 587} && dst !in {21, 25, 587}
    ensures Resolved([smtp, ftp, UNKNOWN], src, dst, GREETING + rest, fromClient) == Some(smtp)
    ensures Resolved([ftp, smtp, UNKNOWN], src, dst, GREETING + rest, fromClient) == Some(ftp)
    ensures smtp != ftp
  {
    var sample := GREETING + rest;
    GreetingScores(rest, fromClient);
    GreetingGoesToFirst(smtp, ftp, src, dst, sample, fromClient);
    GreetingGoesToFirst(ftp, smtp, src, dst, sample, fromClient);
  }

  lemma GreetingGoesToFirst(one: Parser, two: Parser, src: Port, dst: Port, sample: bytes, fromClient: bool)
    requires src !in one.ports + two.ports && dst !in one.ports + two.ports
    requires one.probe(sample, fromClient) == two.probe(sample, fromClient) == 90
    ensures Resolved([one, two, UNKNOWN], src, dst, sample, fromClient) == Some(one)
  {
    hide Indexed, Best;
    var all := [one, two, UNKNOWN];
    NotIndexed(all, src);
    NotIndexed(all, dst);
    assert UNKNOWN.probe(sample, fromClient) <= 1;
    assert Tops(all, 0, sample, fromClient);
    FrontWins(all, sample, fromClient);
  }

  /**
   In the registry as built the two are top contenders for the greeting whenever no port is listed and no
   other parser scores above 90, so there the order of registration matters.
   */
  lemma WiredGreetingTie(all: seq<Parser>, rest: bytes, src: Port, dst: Port, fromClient: bool)
    requires Wired(all) && !Listed(all, src) && !Listed(all, dst)
    requires var sample := GREETING + rest;
      && all[7].probe(sample, fromClient) == SmtpProbe(sample, fromClient)
      && all[8].probe(sample, fromClient) == FtpProbe(sample, fromClient)
      && forall i :: 0 <= i < 14 ==> all[i].probe(sample, fromClient) <= 90
    ensures var sample := GREETING + rest;
      && Tops(all, 7, sample, fromClient) && Tops(all, 8, sample, fromClient) && all[7] != all[8]
      && !OrderIrrelevant(all, src, dst, sample, fromClient)
  {
    hide Wired, Listed, SmtpProbe, FtpProbe, OrderIrrelevant;
    var sample := GREETING + rest;
    GreetingScores(rest, fromClient);
    WiredFacts(all);
    assert UNKNOWN.probe(sample, fromClient) <= 1;
    assert forall i :: 0 <= i < |all| ==> all[i].probe(sample, fromClient) <= 90;
    TiedContenders(all, src, dst, 7, 8, sample, fromClient);
  }

  lemma WiredFacts(all: seq<Parser>)
    requires Wired(all)
    ensures |all| == 15 && all[14] == UNKNOWN && all[7] != all[8]
  {
    assert |all[7].ports| == 2 && |all[8].ports| == 1;
  }

  lemma TiedContenders(
    all: seq<Parser>, src: Port, dst: Port, i: nat, j: nat, sample: bytes, fromClient: bool)
    requires !Listed(all, src) && !Listed(all, dst)
    requires Tops(all, i, sample, fromClient) && Tops(all, j, sample, fromClient) && all[i] != all[j]
    ensures !OrderIrrelevant(all, src, dst, sample, fromClient)
  {
    hide Indexed, OrderIrrelevant, Listed, Tops;
    Unlisted(all, src);
    Unlisted(all, dst);
    OrderIrrelevantExactly(all, src, dst, sample, fromClient);
  }

  lemma Unlisted(all: seq<Parser>, port: Port)
    requires !Listed(all, port)
    ensures Indexed(all, port) == []
  {
    NotIndexed(all, port);
  }
}
