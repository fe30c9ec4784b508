/** The failure tracker of app.js: the two process-wide variables
    `failureCount` and `shouldContinue`, the run-start reset, `handleFailure`,
    and the success branch of the upload queue's worker. */
module Tracker {
  import opened Options

  /** The tracker state of one import run. */
  datatype RunState = RunState(failureCount: nat, shouldContinue: bool)

  /** What a finished unit of work reports to the tracker: an upload that
      resolved, or a failure (a rejected upload or a staging exception). */
  datatype Signal = Success | Failure

  /** Both variables as every run sets them before listing articles. */
  const Initial: RunState := RunState(0, true)

  /** `failureCount >= MAX_FAILURES`. The limit comes from an environment
      variable; when it is missing or not a number the comparison is false,
      which `None` stands for. */
  predicate AtLimit(count: nat, max: Option<nat>) {
    max.Some? && count >= max.value
  }

  /** `handleFailure`: one more failure; the flag drops once the count
      reaches the limit, and nothing here ever raises it again. */
  function HandleFailure(st: RunState, max: Option<nat>): (r: RunState)
    ensures r.failureCount == st.failureCount + 1
    ensures r.shouldContinue ==> st.shouldContinue
    ensures AtLimit(r.failureCount, max) ==> !r.shouldContinue
    ensures !AtLimit(r.failureCount, max) ==> r.shouldContinue == st.shouldContinue
  {
    var count := st.failureCount + 1;
    if AtLimit(count, max) then RunState(count, false) else RunState(count, st.shouldContinue)
  }

  /** The success branch of the queue worker: the count goes back to zero,
      the flag is left as it is. */
  function HandleSuccess(st: RunState): (r: RunState)
    ensures r.failureCount == 0
    ensures r.shouldContinue == st.shouldContinue
  {
    st.(failureCount := 0)
  }

  /** What one settled upload does to the tracker: a success zeroes the
      count, a failure adds one; neither raises the flag. */
  function Record(st: RunState, s: Signal, max: Option<nat>): (r: RunState)
    ensures s == Success ==> r.failureCount == 0 && r.shouldContinue == st.shouldContinue
    ensures s == Failure ==> r.failureCount == st.failureCount + 1
    ensures r.shouldContinue ==> st.shouldContinue
  {
    match s
    case Success => HandleSuccess(st)
    case Failure => HandleFailure(st, max)
  }

  /** The tracker after `signals`, in order, starting from `st`. */
  function RecordAll(st: RunState, signals: seq<Signal>, max: Option<nat>): (r: RunState)
    ensures !st.shouldContinue ==> !r.shouldContinue
    decreases |signals|
  {
    if signals == [] then st
    else Record(RecordAll(st, signals[..|signals| - 1], max), signals[|signals| - 1], max)
  }

  /** Reference definition: the failures reported since the last success
      (or since the start). */
  function ConsecutiveFailures(signals: seq<Signal>): nat
    decreases |signals|
  {
    if signals == [] then 0
    else if signals[|signals| - 1] == Success then 0
    else ConsecutiveFailures(signals[..|signals| - 1]) + 1
  }

  /** Reference definition: some failure among `signals` brought the run of
      consecutive failures up to the limit. */
  ghost predicate Tripped(signals: seq<Signal>, max: Option<nat>) {
    exists k :: 0 < k <= |signals| && signals[k - 1] == Failure
      && AtLimit(ConsecutiveFailures(signals[..k]), max)
  }

  lemma RecordAllAppend(st: RunState, a: seq<Signal>, b: seq<Signal>, max: Option<nat>)
    ensures RecordAll(st, a + b, max) == RecordAll(RecordAll(st, a, max), b, max)
    decreases |b|
  {
    if b == [] {
      assert a + b == a;
    } else {
      var b' := b[..|b| - 1];
      assert (a + b)[..|a + b| - 1] == a + b';
      RecordAllAppend(st, a, b', max);
    }
  }

  lemma {:induction false} TrippedSnoc(signals: seq<Signal>, s: Signal, max: Option<nat>)
    ensures Tripped(signals + [s], max) <==>
      Tripped(signals, max) || (s == Failure && AtLimit(ConsecutiveFailures(signals + [s]), max))
  {
    var t := signals + [s];
    assert t[..|t|] == t;
    if Tripped(signals, max) {
      var k :| 0 < k <= |signals| && signals[k - 1] == Failure
        && AtLimit(ConsecutiveFailures(signals[..k]), max);
      assert t[..k] == signals[..k];
    }
    if Tripped(t, max) && !(s == Failure && AtLimit(ConsecutiveFailures(t), max)) {
      var k :| 0 < k <= |t| && t[k - 1] == Failure && AtLimit(ConsecutiveFailures(t[..k]), max);
      assert k < |t|;
      assert t[..k] == signals[..k];
    }
  }

  /** From the run-start reset, `failureCount` is the number of failures
      since the last success and `shouldContinue` is false exactly when some
      failure made that number reach `MAX_FAILURES`, whatever successes came
      after it. */
  lemma {:induction false} RecordAllFromInitial(signals: seq<Signal>, max: Option<nat>)
    ensures RecordAll(Initial, signals, max)
      == RunState(ConsecutiveFailures(signals), !Tripped(signals, max))
    decreases |signals|
  {
    if signals == [] {
      assert !Tripped(signals, max);
    } else {
      var p := signals[..|signals| - 1];
      var s := signals[|signals| - 1];
      assert signals == p + [s];
      RecordAllFromInitial(p, max);
      TrippedSnoc(p, s, max);
    }
  }

  /** While the flag is up, a non-zero count is below the limit: the
      failure that reaches the limit is the one that lowers the flag. */
  lemma RunningBelowLimit(signals: seq<Signal>, max: Option<nat>)
    ensures var st := RecordAll(Initial, signals, max);
      st.shouldContinue && st.failureCount > 0 ==> !AtLimit(st.failureCount, max)
  {
    RecordAllFromInitial(signals, max);
    var st := RecordAll(Initial, signals, max);
    if st.shouldContinue && st.failureCount > 0 {
      assert signals[|signals| - 1] == Failure;
      assert signals[..|signals|] == signals;
    }
  }

  /** A success after the tracker has tripped zeroes the count but leaves the
      flag down: the flag does not follow `failureCount >= MAX_FAILURES`. */
  lemma SuccessDoesNotRearm()
    ensures RecordAll(Initial, [Failure, Success], Some(1)) == RunState(0, false)
  {
    assert [Failure, Success][..1] == [Failure];
    assert [Failure][..0] == [];
  }

  /** With no usable limit the tracker never trips. */
  lemma NoLimitNeverTrips(signals: seq<Signal>)
    ensures RecordAll(Initial, signals, None).shouldContinue
  {
    RecordAllFromInitial(signals, None);
  }
}
