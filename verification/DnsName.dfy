/**
 DNS domain names with compression pointers: `decodeName` of internal/protocol/dns/parser.go.

 `Decode` is what the code computes, visited set included. Two independent descriptions stand beside
 it: `WalkFrom`, the same walk with no loop detection, run for a number of steps; and `Encodes`, the
 wire relation of section 4.1.4 of RFC 1035 as a finite derivation. The code accepts label lengths up
 to 191 and pointers in any direction, and so does the relation; RFC 1035 encodings are among these.
 */
module DnsName {
  import opened Common

  datatype NameError =
    | OutOfBounds(at: nat)
    | PointerTruncated(at: nat)
    | LabelOverrun(at: nat)

  /** What the byte at an offset asks the walk to do next. */
  datatype Step =
    | End(after: nat)
    | Label(text: bytes, after: nat)
    | Jump(target: nat, after: nat)
    | Broken(error: NameError)

  const PTR_BITS: nat := 0xC0
  const TARGETS: nat := 0x4000

  function StepAt(msg: bytes, cur: nat): (s: Step)
    ensures s.End? || s.Label? ==> cur < s.after <= |msg|
    ensures s.Jump? ==> cur < s.after <= |msg| && s.target < TARGETS
  {
    if cur >= |msg| then Broken(OutOfBounds(cur))
    else
      var length := msg[cur];
      if length == 0 then End(cur + 1)
      else if length >= PTR_BITS then
        if cur + 1 >= |msg| then Broken(PointerTruncated(cur))
        else Jump(BE16(msg, cur) % TARGETS, cur + 2)
      else if cur + 1 + length > |msg| then Broken(LabelOverrun(cur + 1))
      else Label(msg[cur + 1..cur + 1 + length], cur + 1 + length)
  }

  /** When the walk fails: outside the message, at a pointer with one byte, at a label that runs over the end. */
  lemma BoundsFailures(msg: bytes, cur: nat)
    ensures StepAt(msg, cur) == Broken(OutOfBounds(cur)) <==> cur >= |msg|
    ensures StepAt(msg, cur) == Broken(PointerTruncated(cur)) <==> cur == |msg| - 1 && msg[cur] >= 192
    ensures StepAt(msg, cur) == Broken(LabelOverrun(cur + 1)) <==>
      cur < |msg| && 0 < msg[cur] < 192 && cur + 1 + msg[cur] > |msg|
    ensures StepAt(msg, cur).Broken? ==>
      StepAt(msg, cur).error in {OutOfBounds(cur), PointerTruncated(cur), LabelOverrun(cur + 1)}
  {}

  // ------------------------------------------------------------------ the code's walk

  datatype Name =
    | Decoded(labels: seq<bytes>, after: nat)
    | Loop(target: nat)
    | Malformed(error: NameError)

  predicate IsTarget(t: nat) { t < TARGETS }

  ghost function AllTargets(): set<nat> { set t: nat | t < TARGETS && IsTarget(t) }

  /** The termination measure: following a fresh pointer uses up one of the 14-bit targets. */
  lemma FreshTarget(visited: set<nat>, t: nat)
    requires t < TARGETS && t !in visited
    ensures AllTargets() - (visited + {t}) < AllTargets() - visited
  {
    assert IsTarget(t);
    assert t in AllTargets() - visited && t !in AllTargets() - (visited + {t});
  }

  /** The loop of decodeName from a given loop state; `resume` is newOffset, None while it is -1. */
  function Walked(msg: bytes, cur: nat, visited: set<nat>, labels: seq<bytes>, resume: Option<nat>): Name
    decreases AllTargets() - visited, |msg| - cur
  {
    match StepAt(msg, cur)
    case Broken(e) => Malformed(e)
    case End(after) => Decoded(labels, if resume.Some? then resume.value else after)
    case Label(text, after) => Walked(msg, after, visited, labels + [text], resume)
    case Jump(target, after) =>
      if target in visited then Loop(target)
      else
        FreshTarget(visited, target);
        Walked(msg, target, visited + {target}, labels, if resume.Some? then resume else Some(after))
  }

  function Decode(msg: bytes, offset: nat): Name {
    Walked(msg, offset, {}, [], None)
  }

  /** decodeName: the loop over `cur`, `parts`, `visited` and `newOffset`. */
  method DecodeName(msg: bytes, offset: nat) returns (name: Name)
    ensures name == Decode(msg, offset)
  {
    var parts: seq<bytes> := [];
    var visited: set<nat> := {};
    var newOffset: int := -1;
    var cur: nat := offset;
    while true
      invariant newOffset >= -1
      invariant Walked(msg, cur, visited, parts, if newOffset < 0 then None else Some(newOffset)) == Decode(msg, offset)
      decreases AllTargets() - visited, |msg| - cur
    {
      if cur >= |msg| { return Malformed(OutOfBounds(cur)); }
      var length: nat := msg[cur];
      if length == 0 {
        if newOffset < 0 { newOffset := cur + 1; }
        return Decoded(parts, newOffset);
      }
      if length >= PTR_BITS {
        if cur + 1 >= |msg| { return Malformed(PointerTruncated(cur)); }
        var ptr := BE16(msg, cur) % TARGETS;
        if ptr in visited { return Loop(ptr); }
        FreshTarget(visited, ptr);
        visited := visited + {ptr};
        if newOffset < 0 { newOffset := cur + 2; }
        cur := ptr;
        continue;
      }
      cur := cur + 1;
      var end := cur + length;
      if end > |msg| { return Malformed(LabelOverrun(cur)); }
      parts := parts + [msg[cur..end]];
      cur := end;
    }
  }

  // ------------------------------------------------------------------ the walk without a visited set

  datatype Walk =
    | Running(cur: nat, labels: seq<bytes>, resume: Option<nat>)
    | Ended(labels: seq<bytes>, after: nat)
    | Failed(error: NameError)

  function Advance(msg: bytes, w: Walk): Walk {
    if !w.Running? then w
    else match StepAt(msg, w.cur)
      case Broken(e) => Failed(e)
      case End(after) => Ended(w.labels, if w.resume.Some? then w.resume.value else after)
      case Label(text, after) => Running(after, w.labels + [text], w.resume)
      case Jump(target, after) => Running(target, w.labels, if w.resume.Some? then w.resume else Some(after))
  }

  function WalkFrom(msg: bytes, offset: nat, steps: nat): Walk {
    if steps == 0 then Running(offset, [], None) else Advance(msg, WalkFrom(msg, offset, steps - 1))
  }

  ghost predicate NeverEnds(msg: bytes, offset: nat) {
    forall n: nat :: WalkFrom(msg, offset, n).Running?
  }

  /** The offset the walk stands at after n steps, None once it has stopped. */
  function Spot(msg: bytes, offset: nat, n: nat): Option<nat> {
    if n == 0 then Some(offset)
    else
      var s := Spot(msg, offset, n - 1);
      if s.None? then None
      else match StepAt(msg, s.value)
        case Label(_, after) => Some(after)
        case Jump(target, _) => Some(target)
        case _ => None
  }

  lemma {:induction false} SpotOfWalk(msg: bytes, offset: nat, n: nat)
    ensures var w := WalkFrom(msg, offset, n);
      Spot(msg, offset, n) == if w.Running? then Some(w.cur) else None
  {
    if n > 0 { SpotOfWalk(msg, offset, n - 1); }
  }

  ghost predicate PassedBy(msg: bytes, offset: nat, target: nat, steps: nat) {
    exists i: nat :: i <= steps && Spot(msg, offset, i) == Some(target)
  }

  /** Once the walk has stopped it stays where it is. */
  lemma {:induction false} StoppedStays(msg: bytes, offset: nat, m: nat, n: nat)
    requires m <= n && !WalkFrom(msg, offset, m).Running?
    ensures WalkFrom(msg, offset, n) == WalkFrom(msg, offset, m)
    decreases n - m
  {
    if m < n { StoppedStays(msg, offset, m, n - 1); }
  }

  /** Standing twice at the same offset, the walk is periodic from there on. */
  lemma {:induction false} Periodic(msg: bytes, offset: nat, i: nat, j: nat, n: nat)
    requires Spot(msg, offset, i) == Spot(msg, offset, j)
    ensures Spot(msg, offset, i + n) == Spot(msg, offset, j + n)
  {
    hide StepAt;
    if n > 0 { Periodic(msg, offset, i, j, n - 1); }
  }

  lemma {:induction false} GoingBefore(msg: bytes, offset: nat, m: nat, n: nat)
    requires m <= n && Spot(msg, offset, n).Some?
    ensures Spot(msg, offset, m).Some?
    decreases n
  {
    if m < n { GoingBefore(msg, offset, m, n - 1); }
  }

  lemma {:induction false} SameSpotGoesOn(msg: bytes, offset: nat, i: nat, j: nat, n: nat)
    requires i < j && Spot(msg, offset, i) == Spot(msg, offset, j) && Spot(msg, offset, j).Some?
    ensures Spot(msg, offset, n).Some?
    decreases n
  {
    hide StepAt, Spot;
    if n <= j {
      GoingBefore(msg, offset, n, j);
    } else {
      var m := n - j;
      Periodic(msg, offset, i, j, m);
      SameSpotGoesOn(msg, offset, i, j, i + m);
      assert j + m == n;
    }
  }

  lemma SameSpotNeverEnds(msg: bytes, offset: nat, target: nat, n: nat)
    requires PassedBy(msg, offset, target, n) && Spot(msg, offset, n + 1) == Some(target)
    ensures NeverEnds(msg, offset)
  {
    var i: nat :| i <= n && Spot(msg, offset, i) == Some(target);
    forall m: nat ensures WalkFrom(msg, offset, m).Running? {
      SameSpotGoesOn(msg, offset, i, n + 1, m);
      SpotOfWalk(msg, offset, m);
    }
  }

  ghost predicate StopsAs(msg: bytes, offset: nat, w: Walk) {
    exists n: nat :: WalkFrom(msg, offset, n) == w
  }

  /** What a result of the code says about the walk without a visited set. */
  ghost predicate Explains(msg: bytes, offset: nat, name: Name) {
    match name
    case Loop(_) => NeverEnds(msg, offset)
    case Decoded(labels, after) => StopsAs(msg, offset, Ended(labels, after))
    case Malformed(e) => StopsAs(msg, offset, Failed(e))
  }

  lemma PassedByLater(msg: bytes, offset: nat, n: nat, visited: set<nat>)
    requires forall t :: t in visited ==> PassedBy(msg, offset, t, n)
    ensures forall t :: t in visited ==> PassedBy(msg, offset, t, n + 1)
  {
    forall t | t in visited ensures PassedBy(msg, offset, t, n + 1) {
      var i: nat :| i <= n && Spot(msg, offset, i) == Some(t);
      assert i <= n + 1;
    }
  }

  lemma WalkStep(msg: bytes, offset: nat, n: nat, w: Walk)
    requires WalkFrom(msg, offset, n) == w
    ensures WalkFrom(msg, offset, n + 1) == Advance(msg, w)
    ensures Advance(msg, w).Running? ==> Spot(msg, offset, n + 1) == Some(Advance(msg, w).cur)
  {
    SpotOfWalk(msg, offset, n + 1);
  }

  lemma PassedNow(
    msg: bytes, offset: nat, n: nat, cur: nat, labels: seq<bytes>, resume: Option<nat>, target: nat)
    requires WalkFrom(msg, offset, n) == Running(cur, labels, resume)
    requires StepAt(msg, cur).Jump? && StepAt(msg, cur).target == target
    ensures PassedBy(msg, offset, target, n + 1)
  {
    hide StepAt, Spot, WalkFrom;
    WalkStep(msg, offset, n, Running(cur, labels, resume));
    assert Spot(msg, offset, n + 1) == Some(target);
  }

  lemma {:induction false} WalkedExplains(
    msg: bytes, offset: nat, n: nat, cur: nat, visited: set<nat>, labels: seq<bytes>, resume: Option<nat>)
    requires WalkFrom(msg, offset, n) == Running(cur, labels, resume)
    requires forall t :: t in visited ==> PassedBy(msg, offset, t, n)
    ensures Explains(msg, offset, Walked(msg, cur, visited, labels, resume))
    decreases AllTargets() - visited, |msg| - cur
  {
    hide StepAt, PassedBy;
    WalkStep(msg, offset, n, Running(cur, labels, resume));
    match StepAt(msg, cur)
    case Broken(e) =>
    case End(after) =>
    case Label(text, after) =>
      PassedByLater(msg, offset, n, visited);
      WalkedExplains(msg, offset, n + 1, after, visited, labels + [text], resume);
    case Jump(target, after) =>
      if target in visited {
        SameSpotNeverEnds(msg, offset, target, n);
      } else {
        var resume' := if resume.Some? then resume else Some(after);
        FreshTarget(visited, target);
        PassedByLater(msg, offset, n, visited);
        PassedNow(msg, offset, n, cur, labels, resume, target);
        WalkedExplains(msg, offset, n + 1, target, visited + {target}, labels, resume');
      }
  }

  /** The walk stops in at most one way. */
  lemma StopsOnce(msg: bytes, offset: nat, v: Walk, w: Walk)
    requires StopsAs(msg, offset, v) && StopsAs(msg, offset, w) && !v.Running? && !w.Running?
    ensures v == w && !NeverEnds(msg, offset)
  {
    var m: nat :| WalkFrom(msg, offset, m) == v;
    var n: nat :| WalkFrom(msg, offset, n) == w;
    if m <= n { StoppedStays(msg, offset, m, n); } else { StoppedStays(msg, offset, n, m); }
  }

  /** Loop detection is exact, and otherwise the result is the one the unguarded walk stops with. */
  lemma LoopDetectionExact(msg: bytes, offset: nat)
    ensures Decode(msg, offset).Loop? <==> NeverEnds(msg, offset)
    ensures forall labels: seq<bytes>, after: nat ::
      Decode(msg, offset) == Decoded(labels, after) <==> StopsAs(msg, offset, Ended(labels, after))
    ensures forall e: NameError :: Decode(msg, offset) == Malformed(e) <==> StopsAs(msg, offset, Failed(e))
  {
    WalkedExplains(msg, offset, 0, offset, {}, [], None);
    forall v, w | StopsAs(msg, offset, v) && StopsAs(msg, offset, w) && !v.Running? && !w.Running?
      ensures v == w && !NeverEnds(msg, offset)
    {
      StopsOnce(msg, offset, v, w);
    }
  }

  // ------------------------------------------------------------------ the returned offset

  lemma {:induction false} WalkedForward(
    msg: bytes, start: nat, cur: nat, visited: set<nat>, labels: seq<bytes>, resume: Option<nat>)
    requires resume.None? ==> start <= cur
    requires resume.Some? ==> start < resume.value <= |msg|
    ensures var name := Walked(msg, cur, visited, labels, resume);
      name.Decoded? ==> start < name.after <= |msg|
    decreases AllTargets() - visited, |msg| - cur
  {
    match StepAt(msg, cur)
    case Broken(_) =>
    case End(_) =>
    case Label(text, after) => WalkedForward(msg, start, after, visited, labels + [text], resume);
    case Jump(target, after) =>
      if target !in visited {
        FreshTarget(visited, target);
        WalkedForward(msg, start, target, visited + {target}, labels,
                      if resume.Some? then resume else Some(after));
      }
  }

  /** On success the parser moves strictly forward and stays inside the message. */
  lemma DecodeForward(msg: bytes, offset: nat)
    ensures Decode(msg, offset).Decoded? ==> offset < Decode(msg, offset).after <= |msg|
  {
    WalkedForward(msg, offset, offset, {}, [], None);
  }

  // ------------------------------------------------------------------ the wire relation

  /** The bytes at `off` encode `labels` in place up to `end`, with a derivation of height at most n. */
  ghost predicate Encodes(msg: bytes, off: nat, labels: seq<bytes>, end: nat, n: nat)
    decreases n, 0
  {
    && n > 0
    && off < |msg|
    && if msg[off] == 0 then labels == [] && end == off + 1
       else if msg[off] < 192 then
         && labels != []
         && off + 1 + msg[off] <= |msg|
         && labels[0] == msg[off + 1..off + 1 + msg[off]]
         && Encodes(msg, off + 1 + msg[off], labels[1..], end, n - 1)
       else
         && off + 1 < |msg|
         && end == off + 2
         && Follows(msg, (msg[off] as int - 192) * 256 + msg[off + 1], labels, n - 1)
  }

  /** A pointer stands for whatever name its target encodes. */
  ghost predicate Follows(msg: bytes, target: nat, labels: seq<bytes>, n: nat)
    decreases n, 1
  {
    exists end: nat :: Encodes(msg, target, labels, end, n)
  }

  ghost predicate NameAt(msg: bytes, off: nat, labels: seq<bytes>, end: nat) {
    exists n: nat :: Encodes(msg, off, labels, end, n)
  }

  /** The 14-bit target of a pointer octet pair. */
  lemma PointerTarget(msg: bytes, off: nat)
    requires off + 1 < |msg| && msg[off] >= 192
    ensures BE16(msg, off) % TARGETS == (msg[off] as int - 192) * 256 + msg[off + 1]
  {}

  lemma {:induction false} EncodesWalks(
    msg: bytes, start: nat, k: nat, off: nat, done: seq<bytes>, resume: Option<nat>,
    labels: seq<bytes>, end: nat, n: nat)
    returns (m: nat)
    requires WalkFrom(msg, start, k) == Running(off, done, resume)
    requires Encodes(msg, off, labels, end, n)
    ensures WalkFrom(msg, start, m) == Ended(done + labels, if resume.Some? then resume.value else end)
    decreases n
  {
    hide BE16, NeverEnds, StopsAs, Spot, NameAt;
    WalkStep(msg, start, k, Running(off, done, resume));
    if msg[off] == 0 {
      assert StepAt(msg, off) == End(off + 1) && done + labels == done;
      m := k + 1;
    } else if msg[off] < 192 {
      assert StepAt(msg, off) == Label(labels[0], off + 1 + msg[off]);
      assert WalkFrom(msg, start, k + 1) == Running(off + 1 + msg[off], done + [labels[0]], resume);
      assert done + [labels[0]] + labels[1..] == done + labels;
      m := EncodesWalks(msg, start, k + 1, off + 1 + msg[off], done + [labels[0]], resume, labels[1..], end, n - 1);
    } else {
      PointerTarget(msg, off);
      var target := BE16(msg, off) % TARGETS;
      var e: nat :| Encodes(msg, target, labels, e, n - 1);
      var resume' := if resume.Some? then resume else Some(off + 2);
      assert StepAt(msg, off) == Jump(target, off + 2);
      assert WalkFrom(msg, start, k + 1) == Running(target, done, resume');
      m := EncodesWalks(msg, start, k + 1, target, done, resume', labels, e, n - 1);
    }
  }

  lemma {:induction false} WalkedEncodes(msg: bytes, cur: nat, visited: set<nat>, done: seq<bytes>, resume: Option<nat>)
    returns (labels: seq<bytes>, end: nat, n: nat)
    requires Walked(msg, cur, visited, done, resume).Decoded?
    ensures Encodes(msg, cur, labels, end, n)
    ensures Walked(msg, cur, visited, done, resume)
         == Decoded(done + labels, if resume.Some? then resume.value else end)
    decreases AllTargets() - visited, |msg| - cur
  {
    hide BE16;
    match StepAt(msg, cur)
    case End(after) =>
      labels, end, n := [], after, 1;
      assert done + [] == done;
    case Label(text, after) =>
      var rest: seq<bytes>;
      rest, end, n := WalkedEncodes(msg, after, visited, done + [text], resume);
      labels, n := [text] + rest, n + 1;
      assert done + [text] + rest == done + labels;
      assert labels[1..] == rest;
    case Jump(target, after) =>
      FreshTarget(visited, target);
      var e: nat;
      var resume' := if resume.Some? then resume else Some(after);
      labels, e, n := WalkedEncodes(msg, target, visited + {target}, done, resume');
      PointerTarget(msg, cur);
      assert Follows(msg, target, labels, n);
      end, n := after, n + 1;
  }

  /** The code decodes exactly the names the wire relation derives, and stops where they end in place. */
  lemma DecodesExactlyTheEncoded(msg: bytes, off: nat, labels: seq<bytes>, end: nat)
    ensures Decode(msg, off) == Decoded(labels, end) <==> NameAt(msg, off, labels, end)
  {
    if NameAt(msg, off, labels, end) {
      var n: nat :| Encodes(msg, off, labels, end, n);
      var m := EncodesWalks(msg, off, 0, off, [], None, labels, end, n);
      assert [] + labels == labels;
      assert StopsAs(msg, off, Ended(labels, end));
      LoopDetectionExact(msg, off);
    }
    if Decode(msg, off) == Decoded(labels, end) {
      var l, e, n := WalkedEncodes(msg, off, {}, [], None);
      assert [] + l == l;
    }
  }

  lemma {:induction false} EncodesExtends(msg: bytes, more: bytes, off: nat, labels: seq<bytes>, end: nat, n: nat)
    requires Encodes(msg, off, labels, end, n)
    ensures Encodes(msg + more, off, labels, end, n)
    decreases n
  {
    if msg[off] == 0 {
    } else if msg[off] < 192 {
      assert (msg + more)[off + 1..off + 1 + msg[off]] == msg[off + 1..off + 1 + msg[off]];
      EncodesExtends(msg, more, off + 1 + msg[off], labels[1..], end, n - 1);
    } else {
      var target := (msg[off] as int - 192) * 256 + msg[off + 1];
      var e: nat :| Encodes(msg, target, labels, e, n - 1);
      EncodesExtends(msg, more, target, labels, e, n - 1);
      assert Follows(msg + more, target, labels, n - 1);
    }
  }

  /** A name stays readable when bytes are appended to the message. */
  lemma NameAtExtends(msg: bytes, more: bytes, off: nat, labels: seq<bytes>, end: nat)
    requires NameAt(msg, off, labels, end)
    ensures NameAt(msg + more, off, labels, end)
  {
    var n: nat :| Encodes(msg, off, labels, end, n);
    EncodesExtends(msg, more, off, labels, end, n);
  }

  // ------------------------------------------------------------------ the encodings of RFC 1035

  /**
   An encoding as section 4.1.4 of RFC 1035 has it: labels of at most 63 bytes, and pointers only to names
   that begin before the one they end. `start` is where the name being read begins.
   */
  ghost predicate RfcEncodes(msg: bytes, start: nat, off: nat, labels: seq<bytes>, end: nat)
    decreases start, |msg| - off, 0
  {
    && start <= off < |msg|
    && if msg[off] == 0 then labels == [] && end == off + 1
       else if msg[off] < 64 then
         && labels != []
         && off + 1 + msg[off] <= |msg|
         && labels[0] == msg[off + 1..off + 1 + msg[off]]
         && RfcEncodes(msg, start, off + 1 + msg[off], labels[1..], end)
       else
         && msg[off] >= 192
         && off + 1 < |msg|
         && end == off + 2
         && (msg[off] as int - 192) * 256 + msg[off + 1] < start
         && RfcNameAt(msg, (msg[off] as int - 192) * 256 + msg[off + 1], labels)
  }

  /** A whole name begins at an offset. */
  ghost predicate RfcNameAt(msg: bytes, off: nat, labels: seq<bytes>)
    decreases off, |msg| + 1, 1
  {
    exists end: nat :: RfcEncodes(msg, off, off, labels, end)
  }

  lemma RfcNameEnds(msg: bytes, off: nat, labels: seq<bytes>) returns (end: nat)
    requires RfcNameAt(msg, off, labels)
    ensures RfcEncodes(msg, off, off, labels, end)
  {
    end :| RfcEncodes(msg, off, off, labels, end);
  }

  /** The wire relation covers them. */
  lemma {:induction false} RfcIsEncoded(msg: bytes, start: nat, off: nat, labels: seq<bytes>, end: nat)
    returns (n: nat)
    requires RfcEncodes(msg, start, off, labels, end)
    ensures Encodes(msg, off, labels, end, n)
    decreases start, |msg| - off
  {
    if msg[off] == 0 {
      n := 1;
    } else if msg[off] < 64 {
      n := RfcIsEncoded(msg, start, off + 1 + msg[off], labels[1..], end);
      n := n + 1;
    } else {
      var target := (msg[off] as int - 192) * 256 + msg[off + 1];
      var e := RfcNameEnds(msg, target, labels);
      n := RfcIsEncoded(msg, target, target, labels, e);
      assert Follows(msg, target, labels, n);
      n := n + 1;
    }
  }

  /** So every name encoded as RFC 1035 has it is decoded to its labels, up to where it ends in place. */
  lemma RfcDecodes(msg: bytes, off: nat, labels: seq<bytes>, end: nat)
    requires RfcEncodes(msg, off, off, labels, end)
    ensures NameAt(msg, off, labels, end) && Decode(msg, off) == Decoded(labels, end)
  {
    var n := RfcIsEncoded(msg, off, off, labels, end);
    DecodesExactlyTheEncoded(msg, off, labels, end);
  }

  lemma {:induction false} RfcExtends(
    msg: bytes, more: bytes, start: nat, from: nat, off: nat, labels: seq<bytes>, end: nat)
    requires RfcEncodes(msg, start, off, labels, end) && start <= from <= off
    ensures RfcEncodes(msg + more, from, off, labels, end)
    decreases start, |msg| - off
  {
    if msg[off] == 0 {
    } else if msg[off] < 64 {
      assert (msg + more)[off + 1..off + 1 + msg[off]] == msg[off + 1..off + 1 + msg[off]];
      RfcExtends(msg, more, start, from, off + 1 + msg[off], labels[1..], end);
    } else {
      var target := (msg[off] as int - 192) * 256 + msg[off + 1];
      var e := RfcNameEnds(msg, target, labels);
      RfcExtends(msg, more, target, target, target, labels, e);
      assert RfcNameAt(msg + more, target, labels);
    }
  }

  // ------------------------------------------------------------------ a compressing writer

  /** Labels as RFC 1035 writes them: one to 63 bytes. */
  predicate LegalName(labels: seq<bytes>) {
    forall i :: 0 <= i < |labels| ==> 1 <= |labels[i]| <= 63
  }

  /** Where each name suffix already stands in the output. */
  type Dictionary = map<seq<bytes>, nat>

  /** Every entry stands below a limit and its name is there. */
  ghost predicate PointsBelow(out: bytes, dict: Dictionary, limit: nat) {
    forall s :: s in dict ==> dict[s] < TARGETS && dict[s] < limit && RfcNameAt(out, dict[s], s)
  }

  ghost predicate Points(out: bytes, dict: Dictionary) {
    PointsBelow(out, dict, |out|)
  }

  /** Writes a name, replacing the longest suffix already written by a pointer to it. */
  function PutName(out: bytes, dict: Dictionary, labels: seq<bytes>): (r: (bytes, Dictionary))
    requires LegalName(labels)
    requires forall s :: s in dict ==> dict[s] < TARGETS
    ensures forall s :: s in r.1 ==> r.1[s] < TARGETS
    decreases |labels|
  {
    if labels == [] then (out + [0], dict)
    else if labels in dict then (out + PutBE16(PTR_BITS * 256 + dict[labels]), dict)
    else
      var (out', dict') := PutName(out + [|labels[0]|] + labels[0], dict, labels[1..]);
      (out', if |out| < TARGETS then dict'[labels := |out|] else dict')
  }

  /** Bytes a name takes without compression. */
  function PlainLength(labels: seq<bytes>): nat {
    if labels == [] then 1 else 1 + |labels[0]| + PlainLength(labels[1..])
  }

  /** Bytes it takes with it, whatever stands before it. */
  function NameLength(dict: Dictionary, labels: seq<bytes>): nat {
    if labels == [] then 1
    else if labels in dict then 2
    else 1 + |labels[0]| + NameLength(dict, labels[1..])
  }

  lemma {:induction false} NameLengthBounds(dict: Dictionary, labels: seq<bytes>)
    requires LegalName(labels)
    ensures 1 <= NameLength(dict, labels) <= PlainLength(labels)
  {
    if labels != [] { NameLengthBounds(dict, labels[1..]); }
  }

  lemma {:induction false} PutNameLength(out: bytes, dict: Dictionary, labels: seq<bytes>)
    requires LegalName(labels) && forall s :: s in dict ==> dict[s] < TARGETS
    ensures |PutName(out, dict, labels).0| == |out| + NameLength(dict, labels)
    decreases |labels|
  {
    if labels != [] && labels !in dict {
      PutNameLength(out + [|labels[0]|] + labels[0], dict, labels[1..]);
    }
  }

  lemma PointsExtends(out: bytes, more: bytes, dict: Dictionary, limit: nat)
    requires PointsBelow(out, dict, limit)
    ensures PointsBelow(out + more, dict, limit) && PointsBelow(out + more, dict, limit + |more|)
  {
    hide RfcEncodes;
    forall s | s in dict ensures RfcNameAt(out + more, dict[s], s) {
      var e := RfcNameEnds(out, dict[s], s);
      RfcExtends(out, more, dict[s], dict[s], dict[s], s, e);
    }
  }

  /** A label written in front of an encoded name makes the longer name. */
  lemma LabelBeforeName(start: nat, out: bytes, labels: seq<bytes>, out': bytes)
    requires labels != [] && 1 <= |labels[0]| <= 63 && start <= |out|
    requires var mid := out + [|labels[0]|] + labels[0];
      mid <= out' && RfcEncodes(out', start, |mid|, labels[1..], |out'|)
    ensures RfcEncodes(out', start, |out|, labels, |out'|)
  {
    var mid := out + [|labels[0]|] + labels[0];
    assert out'[..|mid|] == mid;
    assert out'[|out|] == mid[|out|] == |labels[0]|;
    assert out'[|out| + 1..|mid|] == mid[|out| + 1..] == labels[0];
  }

  /** A pointer to where a name stands encodes it again. */
  lemma PointerEncodes(start: nat, out: bytes, dict: Dictionary, labels: seq<bytes>)
    requires labels in dict && PointsBelow(out, dict, start) && start <= |out|
    ensures var out' := out + PutBE16(PTR_BITS * 256 + dict[labels]);
      RfcEncodes(out', start, |out|, labels, |out'|)
  {
    var target := dict[labels];
    var ptr := PutBE16(PTR_BITS * 256 + target);
    PointsExtends(out, ptr, dict, start);
    var out' := out + ptr;
    assert out'[|out|] == ptr[0] && out'[|out| + 1] == ptr[1];
    assert (out'[|out|] as int - 192) * 256 + out'[|out| + 1] == target;
  }

  /** Part of a name that began at `start`: pointers go below the start, entries for the suffixes are added. */
  lemma {:induction false} PutNameFrom(start: nat, out: bytes, dict: Dictionary, labels: seq<bytes>)
    requires LegalName(labels) && PointsBelow(out, dict, start) && start <= |out|
    ensures var (out', dict') := PutName(out, dict, labels);
      && out <= out'
      && RfcEncodes(out', start, |out|, labels, |out'|)
      && Points(out', dict')
    decreases |labels|
  {
    hide RfcEncodes, RfcNameAt;
    var (out', dict') := PutName(out, dict, labels);
    if labels == [] {
      PointsExtends(out, [0], dict, start);
      RootEncodes(start, out);
    } else if labels in dict {
      PointsExtends(out, PutBE16(PTR_BITS * 256 + dict[labels]), dict, start);
      PointerEncodes(start, out, dict, labels);
    } else {
      var head := [|labels[0]|] + labels[0];
      var mid := out + [|labels[0]|] + labels[0];
      assert mid == out + head;
      PointsExtends(out, head, dict, start);
      PutNameFrom(start, mid, dict, labels[1..]);
      LabelBeforeName(start, out, labels, out');
      StandsAlone(start, out', |out|, labels, |out'|);
    }
  }

  lemma RootEncodes(start: nat, out: bytes)
    requires start <= |out|
    ensures RfcEncodes(out + [0], start, |out|, [], |out| + 1)
  {}

  /** A suffix of a name is a name that begins where it stands. */
  lemma StandsAlone(start: nat, out: bytes, off: nat, labels: seq<bytes>, end: nat)
    requires RfcEncodes(out, start, off, labels, end)
    ensures RfcNameAt(out, off, labels)
  {
    RfcExtends(out, [], start, off, off, labels, end);
    assert out + [] == out;
  }

  /** The writer appends an encoding of the name as RFC 1035 has it and keeps its dictionary truthful. */
  lemma PutNameEncodes(out: bytes, dict: Dictionary, labels: seq<bytes>)
    requires LegalName(labels) && Points(out, dict)
    ensures var (out', dict') := PutName(out, dict, labels);
      && out <= out'
      && RfcEncodes(out', |out|, |out|, labels, |out'|)
      && NameAt(out', |out|, labels, |out'|)
      && Points(out', dict')
  {
    hide RfcEncodes, PutName;
    PutNameFrom(|out|, out, dict, labels);
    RfcDecodes(PutName(out, dict, labels).0, |out|, labels, |PutName(out, dict, labels).0|);
  }
}
