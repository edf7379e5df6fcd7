/** Start order, rollback and stop order: internal/pipeline/pipeline.go. */
module Pipeline {
  import opened Common

  type Error = nat

  /** A stage, by what its Start and its Stop return. */
  datatype Stage = Stage(startError: Option<Error>, stopError: Option<Error>)

  /** A call made on the stage at a position. */
  datatype Call = Start(stage: nat) | Stop(stage: nat)

  function Starts(n: nat): (calls: seq<Call>)
    ensures |calls| == n && forall i :: 0 <= i < n ==> calls[i] == Start(i)
  {
    seq(n, i requires 0 <= i < n => Start(i))
  }

  /** The stages below n, last first. */
  function Stops(n: nat): (calls: seq<Call>)
    ensures |calls| == n && forall i :: 0 <= i < n ==> calls[i] == Stop(n - 1 - i)
  {
    seq(n, i requires 0 <= i < n => Stop(n - 1 - i))
  }

  /** The error of the stage stopped first among those whose Stop failed. */
  ghost predicate FirstStopError(stages: seq<Stage>, err: Option<Error>) {
    match err
    case None => forall i :: 0 <= i < |stages| ==> stages[i].stopError.None?
    case Some(_) => exists i :: 0 <= i < |stages| && stages[i].stopError == err
                                && forall j :: i < j < |stages| ==> stages[j].stopError.None?
  }

  /** stopInReverse: every stage is stopped, and only the first error is kept. */
  method StopInReverse(stages: seq<Stage>) returns (err: Option<Error>, calls: seq<Call>)
    ensures calls == Stops(|stages|)
    ensures FirstStopError(stages, err)
  {
    err, calls := None, [];
    var i := |stages|;
    while i > 0
      invariant 0 <= i <= |stages|
      invariant |calls| == |stages| - i && forall k :: 0 <= k < |calls| ==> calls[k] == Stop(|stages| - 1 - k)
      invariant match err
        case None => forall k :: i <= k < |stages| ==> stages[k].stopError.None?
        case Some(_) => exists k :: i <= k < |stages| && stages[k].stopError == err
                                    && forall j :: k < j < |stages| ==> stages[j].stopError.None?
    {
      i := i - 1;
      calls := calls + [Stop(i)];
      if stages[i].stopError.Some? && err.None? { err := stages[i].stopError; }
    }
  }

  /** What Run reports: the failing stage and its error. */
  datatype Failure = Failure(stage: nat, error: Error)

  class Pipeline {
    var stages: seq<Stage>

    constructor ()
      ensures stages == []
    {
      stages := [];
    }

    method AddStage(s: Stage)
      modifies this
      ensures stages == old(stages) + [s]
    {
      stages := stages + [s];
    }

    /**
     Run starts the stages in order. When the k-th fails, exactly the stages before it have been started,
     exactly those are stopped in reverse order, and the reported error is that of the failed start,
     whatever the rollback returns.
     */
    method Run() returns (failure: Option<Failure>, calls: seq<Call>)
      ensures failure.None? ==>
        (forall i :: 0 <= i < |stages| ==> stages[i].startError.None?) && calls == Starts(|stages|)
      ensures failure.Some? ==>
        var k := failure.value.stage;
        && k < |stages| && stages[k].startError == Some(failure.value.error)
        && (forall i :: 0 <= i < k ==> stages[i].startError.None?)
        && calls == Starts(k + 1) + Stops(k)
    {
      var started: seq<Stage> := [];
      calls := [];
      for k := 0 to |stages|
        invariant started == stages[..k] && calls == Starts(k)
        invariant forall i :: 0 <= i < k ==> stages[i].startError.None?
      {
        var s := stages[k];
        calls := calls + [Start(k)];
        if s.startError.Some? {
          var _, rollback := StopInReverse(started);
          assert calls == Starts(k + 1);
          return Some(Failure(k, s.startError.value)), calls + rollback;
        }
        started := started + [s];
      }
      failure := None;
    }

    method Shutdown() returns (err: Option<Error>, calls: seq<Call>)
      ensures calls == Stops(|stages|) && FirstStopError(stages, err)
    {
      err, calls := StopInReverse(stages);
    }
  }

  /** Every started stage of a failed Run is stopped once, after every stage started later than it. */
  lemma RollbackMirrorsStart(k: nat, i: nat, j: nat)
    requires i < j < k
    ensures var calls := Starts(k + 1) + Stops(k);
      && calls[2 * k - j] == Stop(j) && calls[2 * k - i] == Stop(i) && 2 * k - j < 2 * k - i < |calls|
      && forall p :: 0 <= p < |calls| && calls[p] == Stop(i) ==> p == 2 * k - i
  {}
}
