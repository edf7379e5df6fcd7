/**
 The loop every length-prefixed parser of the repository runs: read one frame from the front, keep its
 event if it has one, cut the frame off, and stop at the first position where no frame can be read.
 A framer is what the loop does at one position. The theorems here hold for every framer that is
 self-delimiting; the parser modules show that theirs are.
 */
module Framing {
  import opened Common

  /** One turn of the loop: stop, or consume n bytes and possibly emit. */
  datatype Turn<+E> = Stop | Take(n: nat, event: Option<E>)

  type Framer<!E> = bytes -> Turn<E>

  function OptionSeq<E>(o: Option<E>): seq<E> { if o.Some? then [o.value] else [] }

  /** A frame is non-empty, lies inside the data, and is read the same whatever bytes follow it. */
  ghost predicate SelfDelimiting<E(!new)>(f: Framer<E>) {
    && f([]).Stop?
    && forall d: bytes, x: bytes {:trigger f(d), Cut(f, d, x)} :: f(d).Take? ==>
         0 < f(d).n <= |d| && f(Cut(f, d, x)) == f(d)
  }

  /** The frame at the front of d, with everything after it replaced by x. */
  function Cut<E>(f: Framer<E>, d: bytes, x: bytes): bytes {
    if f(d).Take? && f(d).n <= |d| then d[..f(d).n] + x else d
  }

  lemma ReadsAlone<E(!new)>(f: Framer<E>, d: bytes, x: bytes)
    requires SelfDelimiting(f) && f(d).Take?
    ensures 0 < f(d).n <= |d| && f(d[..f(d).n] + x) == f(d)
  {
    assert Cut(f, d, x) == d[..f(d).n] + x;
  }

  /** Events and unread remainder of a run of the loop. */
  function Run<E>(f: Framer<E>, d: bytes): (r: (seq<E>, bytes))
    ensures |r.1| <= |d|
    decreases |d|
  {
    match f(d)
    case Stop => ([], d)
    case Take(n, event) =>
      if n == 0 || n > |d| then ([], d)
      else var (events, rest) := Run(f, d[n..]); (OptionSeq(event) + events, rest)
  }

  /** One turn of the loop past a readable frame. */
  lemma RunStep<E(!new)>(f: Framer<E>, d: bytes)
    requires SelfDelimiting(f) && f(d).Take?
    ensures 0 < f(d).n <= |d|
    ensures Run(f, d) == (OptionSeq(f(d).event) + Run(f, d[f(d).n..]).0, Run(f, d[f(d).n..]).1)
  {
    ReadsAlone(f, d, []);
  }

  /** The loop always gets past a readable frame, so what it leaves is a suffix with none at its front. */
  lemma {:induction false} StopsOnlyWithoutFrame<E(!new)>(f: Framer<E>, d: bytes)
    requires SelfDelimiting(f)
    ensures var rest := Run(f, d).1;
      f(rest).Stop? && |rest| <= |d| && rest == d[|d| - |rest|..]
    decreases |d|
  {
    match f(d)
    case Stop =>
    case Take(n, _) =>
      ReadsAlone(f, d, []);
      StopsOnlyWithoutFrame(f, d[n..]);
  }

  /** A frame readable at the front of a is read at the front of a + b, and b stays behind it. */
  lemma TurnExtends<E(!new)>(f: Framer<E>, a: bytes, b: bytes)
    requires SelfDelimiting(f) && f(a).Take?
    ensures 0 < f(a).n <= |a| && f(a + b) == f(a) && (a + b)[f(a).n..] == a[f(a).n..] + b
  {
    var n := f(a).n;
    ReadsAlone(f, a, []);
    ReadsAlone(f, a, a[n..] + b);
    assert a[..n] + (a[n..] + b) == a + b;
  }

  /**
   Parsing is incremental: the events of a + b are those of a followed by those of what a left unread
   plus b. Nothing already emitted is revised by later bytes, and nothing is read twice.
   */
  lemma {:induction false} RunResumes<E(!new)>(f: Framer<E>, a: bytes, b: bytes)
    requires SelfDelimiting(f)
    ensures Run(f, a + b) == (Run(f, a).0 + Run(f, Run(f, a).1 + b).0, Run(f, Run(f, a).1 + b).1)
    decreases |a|
  {
    hide Run, SelfDelimiting;
    match f(a)
    case Stop =>
      RunStops(f, a);
      assert [] + Run(f, a + b).0 == Run(f, a + b).0;
    case Take(n, event) =>
      TurnExtends(f, a, b);
      RunStep(f, a);
      RunStep(f, a + b);
      RunResumes(f, a[n..], b);
      var (events, rest) := Run(f, a[n..]);
      assert OptionSeq(event) + (events + Run(f, rest + b).0) == OptionSeq(event) + events + Run(f, rest + b).0;
  }

  lemma RunStops<E>(f: Framer<E>, d: bytes)
    requires f(d).Stop?
    ensures Run(f, d) == ([], d)
  {}

  /** Complete frames followed by any bytes: the frames' events, then those of the bytes. */
  lemma RunComposes<E(!new)>(f: Framer<E>, a: bytes, b: bytes)
    requires SelfDelimiting(f) && Run(f, a).1 == []
    ensures Run(f, a + b) == (Run(f, a).0 + Run(f, b).0, Run(f, b).1)
  {
    RunResumes(f, a, b);
    assert [] + b == b;
  }

  /** w is exactly one frame with the given event. */
  ghost predicate IsFrame<E(!new)>(f: Framer<E>, w: bytes, event: Option<E>) {
    f(w) == Take(|w|, event)
  }

  function Events<E>(events: seq<Option<E>>): seq<E> {
    if events == [] then [] else OptionSeq(events[0]) + Events(events[1..])
  }

  /** A list of frames on the wire yields exactly their events, in order, then those of what follows. */
  lemma {:induction false} FramesRead<E(!new)>(f: Framer<E>, ws: seq<bytes>, events: seq<Option<E>>, tail: bytes)
    requires SelfDelimiting(f) && |ws| == |events|
    requires forall i :: 0 <= i < |ws| ==> IsFrame(f, ws[i], events[i])
    ensures Run(f, Concat(ws) + tail) == (Events(events) + Run(f, tail).0, Run(f, tail).1)
  {
    hide Run, SelfDelimiting;
    if ws == [] {
      assert Concat(ws) + tail == tail && Events(events) + Run(f, tail).0 == Run(f, tail).0;
    } else {
      var w, rest := ws[0], Concat(ws[1..]) + tail;
      assert IsFrame(f, w, events[0]);
      assert Concat(ws) + tail == w + rest;
      ReadsAlone(f, w, rest);
      assert w[..|w|] == w && (w + rest)[|w|..] == rest;
      forall i | 0 <= i < |ws[1..]| ensures IsFrame(f, ws[1..][i], events[1..][i]) {
        assert IsFrame(f, ws[i + 1], events[i + 1]);
      }
      RunStep(f, w + rest);
      FramesRead(f, ws[1..], events[1..], tail);
      assert OptionSeq(events[0]) + (Events(events[1..]) + Run(f, tail).0) == Events(events) + Run(f, tail).0;
    }
  }

  /** A frame at the front is taken, whatever follows it. */
  lemma FrameInFront<E(!new)>(f: Framer<E>, w: bytes, event: Option<E>, d: bytes)
    requires SelfDelimiting(f) && IsFrame(f, w, event) && w <= d
    ensures f(d) == Take(|w|, event)
  {
    TurnExtends(f, w, d[|w|..]);
    assert d == w + d[|w|..];
  }

  /** One frame on the wire yields its event, then those of what follows. */
  lemma FrameRead<E(!new)>(f: Framer<E>, w: bytes, event: Option<E>, tail: bytes)
    requires SelfDelimiting(f) && IsFrame(f, w, event)
    ensures Run(f, w + tail) == (OptionSeq(event) + Run(f, tail).0, Run(f, tail).1)
  {
    hide Run, SelfDelimiting;
    TurnExtends(f, w, tail);
    assert (w + tail)[|w|..] == tail;
    RunStep(f, w + tail);
  }

  lemma Regrouped<E>(a: seq<E>, b: seq<E>, c: seq<E>)
    ensures a + (b + c) == (a + b) + c
  {}

  /** What a parser's loop keeps: the events so far and those still to come are all the events. */
  lemma LoopStep<E(!new)>(f: Framer<E>, d: bytes, events: seq<E>, n: nat, event: Option<E>)
    requires SelfDelimiting(f) && f(d) == Take(n, event)
    ensures 0 < n <= |d|
    ensures events + OptionSeq(event) + Run(f, d[n..]).0 == events + Run(f, d).0
  {
    hide Run, SelfDelimiting, OptionSeq;
    RunStep(f, d);
    Regrouped(events, OptionSeq(event), Run(f, d[n..]).0);
  }

  lemma LoopEnd<E>(f: Framer<E>, d: bytes, events: seq<E>)
    requires f(d).Stop?
    ensures events + Run(f, d).0 == events
  {}
}
