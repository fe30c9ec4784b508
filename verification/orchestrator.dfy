/** The run orchestrator of app.js, `fetchZendeskArticles`: the run-start
    reset, the walk over the listed articles with the `shouldContinue` check,
    the task buffer flushed to the upload queue in batches, the wait for each
    batch to drain, and the string the run returns.

    The loop takes what staging gives for each listed article as input
    (`StageAll`). The loop stages an article only right after its check found
    `shouldContinue` true, and nothing else runs until staging completes (the
    previous batch has drained), so staging always sees the flag up.

    The upload queue runs every pushed task to completion; in which order the
    tasks of one batch complete is not fixed, so the model takes it as an
    input: `uploads(b, j)` is what the j-th task to complete in the b-th
    flushed batch reported. */
module Orchestrator {
  import opened Options
  import opened Tracker
  import opened Staging
  import Strings

  /** The buffer is flushed when it holds this many tasks. */
  const BatchSize: nat := 5

  const NoArticleMessage: string := "No Article to fetch (check domain and/or previous days value/filter)"
  const UpdatedMessage: string := "KB has been updated"

  /** The outcome of the j-th completion in the b-th flushed batch. */
  type Uploads = (nat, nat) -> Signal

  /** The loop's variables between two iterations, with what the run has
      done so far: the batches pushed to the queue, the files written to the
      staging directory and the signals the tracker received. */
  datatype Loop = Loop(
    next: nat,
    state: RunState,
    buffer: seq<UploadTask>,
    batches: seq<seq<UploadTask>>,
    files: seq<StagedFile>,
    signals: seq<Signal>)

  /** The loop before its first iteration, right after the reset. */
  const Start: Loop := Loop(0, Initial, [], [], [], [])

  /** What staging gives for each listed article while the run goes on. */
  function StageAll(refs: seq<Article>, creds: Credentials): (outs: seq<Staged>)
    ensures |outs| == |refs|
    ensures forall i :: 0 <= i < |refs| ==> outs[i] == Stage(refs[i], creds, true)
  {
    seq(|refs|, i requires 0 <= i < |refs| => Stage(refs[i], creds, true))
  }

  /** The outcomes of a batch of `n` tasks, in completion order. */
  function BatchSignals(uploads: Uploads, b: nat, n: nat): (r: seq<Signal>)
    ensures |r| == n
    ensures forall j :: 0 <= j < n ==> r[j] == uploads(b, j)
  {
    if n == 0 then [] else BatchSignals(uploads, b, n - 1) + [uploads(b, n - 1)]
  }

  /** The `try` block up to the flush test: stage the next article and buffer
      the task it returns. An exception skips the rest of the block (the
      flush test included) and costs one `handleFailure`. */
  function StageNext(outs: seq<Staged>, max: Option<nat>, L: Loop): Loop
    requires L.next < |outs|
  {
    var s := outs[L.next];
    var staged := L.(next := L.next + 1, files := L.files + s.written.ToSeq());
    match s.outcome
    case Raised => staged.(state := HandleFailure(L.state, max), signals := L.signals + [Failure])
    case NoTask => staged
    case Task(t) => staged.(buffer := L.buffer + [t])
  }

  /** Push every buffered task and wait for the queue to drain: each task
      completes and reports to the tracker, then the buffer is emptied. */
  function Flush(L: Loop, uploads: Uploads, max: Option<nat>): Loop {
    var sig := BatchSignals(uploads, |L.batches|, |L.buffer|);
    L.(state := RecordAll(L.state, sig, max), buffer := [], batches := L.batches + [L.buffer],
       signals := L.signals + sig)
  }

  /** The flush test once article `i` is staged and `n` tasks are
      buffered: unless staging threw, flush a full buffer, or at the last
      index a buffer holding any task. */
  predicate FlushTest(outs: seq<Staged>, i: nat, n: nat)
    requires i < |outs|
  {
    !outs[i].outcome.Raised? && (n == BatchSize || (i == |outs| - 1 && n > 0))
  }

  /** One iteration of the loop body: stage, then flush if the test says so. */
  function Process(outs: seq<Staged>, max: Option<nat>, uploads: Uploads, L: Loop): (r: Loop)
    requires L.next < |outs|
    ensures r.next == L.next + 1
    ensures r.state.shouldContinue ==> L.state.shouldContinue
  {
    var staged := StageNext(outs, max, L);
    if FlushTest(outs, L.next, |staged.buffer|) then Flush(staged, uploads, max) else staged
  }

  /** An exception from staging costs exactly one `handleFailure` and moves
      on to the next article; the flush test is skipped, even at the last
      index, so the buffer and the pushed batches stay as they were. */
  lemma StagingErrorCostsOneFailure(outs: seq<Staged>, max: Option<nat>, uploads: Uploads, L: Loop)
    requires L.next < |outs|
    requires outs[L.next].outcome.Raised?
    ensures var r := Process(outs, max, uploads, L);
      && r.next == L.next + 1 && r.buffer == L.buffer && r.batches == L.batches
      && r.signals == L.signals + [Failure] && r.state == HandleFailure(L.state, max)
  {
  }

  /** The loop: stop at the end of the list or at the first check that finds
      `shouldContinue` false. */
  function Iterate(outs: seq<Staged>, max: Option<nat>, uploads: Uploads, L: Loop): (r: Loop)
    requires L.next <= |outs|
    ensures L.next <= r.next <= |outs|
    ensures r.next == |outs| || !r.state.shouldContinue
    decreases |outs| - L.next
  {
    if L.next == |outs| || !L.state.shouldContinue then L
    else Iterate(outs, max, uploads, Process(outs, max, uploads, L))
  }

  /** How a run ends: an exception while listing (the process exits with
      status 1), or the string the function returns and the loop's end. */
  datatype Result = Errored | Finished(message: string, run: Loop)

  /** `fetchZendeskArticles` once the listing is known: `None` is a listing
      that threw. */
  function FetchZendeskArticles(listing: Option<seq<Article>>, creds: Credentials, max: Option<nat>,
                                uploads: Uploads): (r: Result)
    ensures r.Errored? <==> listing.None?
    ensures listing.Some? && |listing.value| == 0 ==> r == Finished(NoArticleMessage, Start)
    ensures listing.Some? && |listing.value| > 0 ==> r.Finished? && r.message == UpdatedMessage
  {
    match listing
    case None => Errored
    case Some(refs) =>
      if |refs| == 0 then Finished(NoArticleMessage, Start)
      else Finished(UpdatedMessage, Iterate(StageAll(refs, creds), max, uploads, Start))
  }

  // ----- Reference definitions -----

  /** The tasks staging returned, in list order. */
  function Produced(outs: seq<Staged>): seq<UploadTask>
    decreases |outs|
  {
    if outs == [] then [] else Produced(outs[..|outs| - 1]) + TaskOf(outs[|outs| - 1])
  }

  /** The files staging wrote, in list order. */
  function WrittenFiles(outs: seq<Staged>): seq<StagedFile>
    decreases |outs|
  {
    if outs == [] then [] else WrittenFiles(outs[..|outs| - 1]) + outs[|outs| - 1].written.ToSeq()
  }

  /** The pushed tasks, batch after batch. */
  function Flatten(batches: seq<seq<UploadTask>>): seq<UploadTask>
    decreases |batches|
  {
    if batches == [] then [] else Flatten(batches[..|batches| - 1]) + batches[|batches| - 1]
  }

  /** The loop body run `k` times with no check of `shouldContinue`. */
  function Steps(outs: seq<Staged>, max: Option<nat>, uploads: Uploads, L: Loop, k: nat): (r: Loop)
    requires L.next + k <= |outs|
    ensures r.next == L.next + k
    decreases k
  {
    if k == 0 then L else Steps(outs, max, uploads, Process(outs, max, uploads, L), k - 1)
  }

  /** How many tasks wait in the buffer once the first `k` articles have
      been visited, counted from the staging outcomes alone. */
  function Pending(outs: seq<Staged>, k: nat): nat
    requires k <= |outs|
    decreases k
  {
    if k == 0 then 0
    else
      var n := Pending(outs, k - 1) + |TaskOf(outs[k - 1])|;
      if FlushTest(outs, k - 1, n) then 0 else n
  }

  /** Whether visiting article `i` flushes the buffer. */
  predicate FlushesAt(outs: seq<Staged>, i: nat)
    requires i < |outs|
  {
    FlushTest(outs, i, Pending(outs, i) + |TaskOf(outs[i])|)
  }

  /** How many flushes visiting the first `k` articles makes. */
  function Flushes(outs: seq<Staged>, k: nat): nat
    requires k <= |outs|
    decreases k
  {
    if k == 0 then 0 else Flushes(outs, k - 1) + (if FlushesAt(outs, k - 1) then 1 else 0)
  }

  /** What the tracker receives while article `i` is visited: one failure
      when staging throws, the outcomes of the batch pushed when the buffer
      is flushed, nothing otherwise. */
  function Contribution(outs: seq<Staged>, uploads: Uploads, i: nat): seq<Signal>
    requires i < |outs|
  {
    if outs[i].outcome.Raised? then [Failure]
    else if FlushesAt(outs, i) then BatchSignals(uploads, Flushes(outs, i), Pending(outs, i) + |TaskOf(outs[i])|)
    else []
  }

  /** What the tracker receives over the first `k` articles, in list order. */
  function Feed(outs: seq<Staged>, uploads: Uploads, k: nat): seq<Signal>
    requires k <= |outs|
    decreases k
  {
    if k == 0 then [] else Feed(outs, uploads, k - 1) + Contribution(outs, uploads, k - 1)
  }

  // ----- The loop invariant -----

  /** What holds between two iterations of a run:
      - every task staged so far has been pushed exactly once, in order, or
        is still in the buffer;
      - the buffer holds fewer than `BatchSize` tasks; every pushed batch is
        non-empty and full, except a last one pushed at the last index;
      - the staged files are those of the articles visited;
      - the tracker is the result of the signals it received;
      - once the last article has been visited without an exception, the
        buffer is empty. */
  ghost predicate Inv(outs: seq<Staged>, max: Option<nat>, L: Loop) {
    && Batched(outs, L)
    && Flatten(L.batches) + L.buffer == Produced(outs[..L.next])
    && L.files == WrittenFiles(outs[..L.next])
    && L.state == RecordAll(Initial, L.signals, max)
  }

  lemma FlattenSnoc(batches: seq<seq<UploadTask>>, b: seq<UploadTask>)
    ensures Flatten(batches + [b]) == Flatten(batches) + b
  {
    assert (batches + [b])[..|batches|] == batches;
  }

  lemma InvStart(outs: seq<Staged>, max: Option<nat>)
    ensures Inv(outs, max, Start)
  {
    assert outs[..0] == [];
  }

  /** The task a staging outcome contributes, if any. */
  function TaskOf(s: Staged): seq<UploadTask> {
    if s.outcome.Task? then [s.outcome.task] else []
  }

  lemma StagingPrefixSnoc(outs: seq<Staged>, i: nat)
    requires i < |outs|
    ensures Produced(outs[..i + 1]) == Produced(outs[..i]) + TaskOf(outs[i])
    ensures WrittenFiles(outs[..i + 1]) == WrittenFiles(outs[..i]) + outs[i].written.ToSeq()
  {
    assert outs[..i + 1][..i] == outs[..i];
    assert outs[..i + 1][i] == outs[i];
  }

  /** A flush pushes the whole buffer as the next batch and empties it, so
      no task is lost, duplicated or reordered; the tracker receives that
      batch's outcomes and no file changes. */
  lemma FlushKeepsTaskOrder(L: Loop, uploads: Uploads, max: Option<nat>)
    ensures var r := Flush(L, uploads, max);
      && r.buffer == [] && r.batches == L.batches + [L.buffer]
      && r.signals == L.signals + BatchSignals(uploads, |L.batches|, |L.buffer|)
      && Flatten(r.batches) + r.buffer == Flatten(L.batches) + L.buffer && r.files == L.files
  {
    FlattenSnoc(L.batches, L.buffer);
  }

  /** Staging one article adds its task to the buffer and its file to the
      staged files. */
  lemma StageNextAccounts(outs: seq<Staged>, max: Option<nat>, L: Loop)
    requires L.next < |outs|
    ensures var staged := StageNext(outs, max, L);
      && staged.next == L.next + 1
      && staged.batches == L.batches
      && staged.signals == L.signals + (if outs[L.next].outcome.Raised? then [Failure] else [])
      && staged.buffer == L.buffer + TaskOf(outs[L.next])
      && staged.files == L.files + outs[L.next].written.ToSeq()
  {
  }

  /** What one loop body does, by the flush test: a flush pushes the
      buffer with the new task and records the batch's outcomes; otherwise
      the task stays buffered and only a staging exception is recorded.
      Stated of any `r` so that the proofs below reason about the effect
      without unfolding the body. */
  ghost predicate BodyEffect(outs: seq<Staged>, uploads: Uploads, L: Loop, r: Loop)
    requires L.next < |outs|
  {
    var n := |L.buffer| + |TaskOf(outs[L.next])|;
    && r.next == L.next + 1
    && r.files == L.files + outs[L.next].written.ToSeq()
    && (FlushTest(outs, L.next, n) ==>
          && r.buffer == [] && r.batches == L.batches + [L.buffer + TaskOf(outs[L.next])]
          && r.signals == L.signals + BatchSignals(uploads, |L.batches|, n))
    && (!FlushTest(outs, L.next, n) ==>
          && r.buffer == L.buffer + TaskOf(outs[L.next]) && r.batches == L.batches
          && r.signals == L.signals + (if outs[L.next].outcome.Raised? then [Failure] else []))
  }

  lemma ProcessCases(outs: seq<Staged>, max: Option<nat>, uploads: Uploads, L: Loop)
    requires L.next < |outs|
    ensures BodyEffect(outs, uploads, L, Process(outs, max, uploads, L))
  {
    var staged := StageNext(outs, max, L);
    StageNextAccounts(outs, max, L);
    var r := Process(outs, max, uploads, L);
    if FlushTest(outs, L.next, |staged.buffer|) {
      assert r == Flush(staged, uploads, max);
    } else {
      assert r == staged;
    }
  }

  /** Pushing the buffer with one more task appended keeps the queue. */
  lemma QueuePush(batches: seq<seq<UploadTask>>, buffer: seq<UploadTask>, t: seq<UploadTask>,
                  produced: seq<UploadTask>)
    requires Flatten(batches) + buffer == produced
    ensures Flatten(batches + [buffer + t]) + [] == produced + t
  {
    FlattenSnoc(batches, buffer + t);
  }

  /** Appending one more task to the buffer keeps the queue. */
  lemma QueueAppend(batches: seq<seq<UploadTask>>, buffer: seq<UploadTask>, t: seq<UploadTask>,
                    produced: seq<UploadTask>)
    requires Flatten(batches) + buffer == produced
    ensures Flatten(batches) + (buffer + t) == produced + t
  {
  }

  lemma TasksStep(outs: seq<Staged>, uploads: Uploads, L: Loop, r: Loop)
    requires L.next < |outs| && BodyEffect(outs, uploads, L, r)
    requires Flatten(L.batches) + L.buffer == Produced(outs[..L.next])
    ensures Flatten(r.batches) + r.buffer == Produced(outs[..r.next])
  {
    var i := L.next;
    var t := TaskOf(outs[i]);
    StagingPrefixSnoc(outs, i);
    if FlushTest(outs, i, |L.buffer| + |t|) {
      assert r.batches == L.batches + [L.buffer + t] && r.buffer == [];
      QueuePush(L.batches, L.buffer, t, Produced(outs[..i]));
    } else {
      assert r.batches == L.batches && r.buffer == L.buffer + t;
      QueueAppend(L.batches, L.buffer, t, Produced(outs[..i]));
    }
  }

  lemma FilesStep(outs: seq<Staged>, uploads: Uploads, L: Loop, r: Loop)
    requires L.next < |outs| && BodyEffect(outs, uploads, L, r)
    requires L.files == WrittenFiles(outs[..L.next])
    ensures r.files == WrittenFiles(outs[..r.next])
  {
    StagingPrefixSnoc(outs, L.next);
  }

  /** Each staged task is pushed or buffered, once and in order. */
  lemma ProcessAccountsForStaging(outs: seq<Staged>, max: Option<nat>, uploads: Uploads, L: Loop)
    requires L.next < |outs|
    requires Flatten(L.batches) + L.buffer == Produced(outs[..L.next])
    ensures var r := Process(outs, max, uploads, L);
      Flatten(r.batches) + r.buffer == Produced(outs[..r.next])
  {
    ProcessCases(outs, max, uploads, L);
    TasksStep(outs, uploads, L, Process(outs, max, uploads, L));
  }

  /** Each staged file is recorded, once and in order. */
  lemma ProcessRecordsFiles(outs: seq<Staged>, max: Option<nat>, uploads: Uploads, L: Loop)
    requires L.next < |outs|
    requires L.files == WrittenFiles(outs[..L.next])
    ensures var r := Process(outs, max, uploads, L);
      r.files == WrittenFiles(outs[..r.next])
  {
    ProcessCases(outs, max, uploads, L);
    FilesStep(outs, uploads, L, Process(outs, max, uploads, L));
  }

  /** The tracker stays the result of the signals it received. */
  lemma ProcessRecordsSignals(outs: seq<Staged>, max: Option<nat>, uploads: Uploads, L: Loop)
    requires L.next < |outs|
    requires L.state == RecordAll(Initial, L.signals, max)
    ensures var r := Process(outs, max, uploads, L);
      r.state == RecordAll(Initial, r.signals, max)
  {
    var staged := StageNext(outs, max, L);
    if outs[L.next].outcome.Raised? {
      assert (L.signals + [Failure])[..|L.signals|] == L.signals;
    } else {
      RecordAllAppend(Initial, L.signals, BatchSignals(uploads, |staged.batches|, |staged.buffer|), max);
    }
  }

  /** The shape of the buffer and of the pushed batches. */
  ghost predicate Batched(outs: seq<Staged>, L: Loop) {
    && L.next <= |outs|
    && |L.buffer| < BatchSize
    && (forall b :: 0 <= b < |L.batches| ==> 0 < |L.batches[b]| <= BatchSize)
    && (forall b :: 0 <= b < |L.batches| - 1 ==> |L.batches[b]| == BatchSize)
    && (|L.batches| > 0 && |L.batches[|L.batches| - 1]| < BatchSize ==> L.next == |outs| && L.buffer == [])
    && (0 < L.next == |outs| && !outs[|outs| - 1].outcome.Raised? ==> L.buffer == [])
  }

  lemma BatchedStep(outs: seq<Staged>, uploads: Uploads, L: Loop, r: Loop)
    requires L.next < |outs| && Batched(outs, L) && BodyEffect(outs, uploads, L, r)
    ensures Batched(outs, r)
  {
    if FlushTest(outs, L.next, |L.buffer| + |TaskOf(outs[L.next])|) {
      forall b | 0 <= b < |r.batches| - 1 ensures |r.batches[b]| == BatchSize {
        assert r.batches[b] == L.batches[b];
      }
    }
  }

  lemma ProcessKeepsBatched(outs: seq<Staged>, max: Option<nat>, uploads: Uploads, L: Loop)
    requires L.next < |outs| && Batched(outs, L)
    ensures Batched(outs, Process(outs, max, uploads, L))
  {
    ProcessCases(outs, max, uploads, L);
    BatchedStep(outs, uploads, L, Process(outs, max, uploads, L));
  }

  lemma ProcessKeepsInv(outs: seq<Staged>, max: Option<nat>, uploads: Uploads, L: Loop)
    requires Inv(outs, max, L) && L.next < |outs|
    ensures Inv(outs, max, Process(outs, max, uploads, L))
  {
    ProcessAccountsForStaging(outs, max, uploads, L);
    ProcessRecordsFiles(outs, max, uploads, L);
    ProcessRecordsSignals(outs, max, uploads, L);
    ProcessKeepsBatched(outs, max, uploads, L);
  }

  /** The invariant holds at every point where the loop checks
      `shouldContinue`, so in particular when it stops. */
  lemma {:induction false} IterateKeepsInv(outs: seq<Staged>, max: Option<nat>, uploads: Uploads, L: Loop)
    requires Inv(outs, max, L)
    ensures Inv(outs, max, Iterate(outs, max, uploads, L))
    decreases |outs| - L.next
  {
    if L.next < |outs| && L.state.shouldContinue {
      ProcessKeepsInv(outs, max, uploads, L);
      IterateKeepsInv(outs, max, uploads, Process(outs, max, uploads, L));
    }
  }

  /** The loop is the body run some number of times in a row. */
  lemma {:induction false} IterateIsSteps(outs: seq<Staged>, max: Option<nat>, uploads: Uploads, L: Loop)
    requires L.next <= |outs|
    ensures var r := Iterate(outs, max, uploads, L);
      r == Steps(outs, max, uploads, L, r.next - L.next)
    decreases |outs| - L.next
  {
    if L.next < |outs| && L.state.shouldContinue {
      var P := Process(outs, max, uploads, L);
      IterateIsSteps(outs, max, uploads, P);
      var r := Iterate(outs, max, uploads, P);
      assert Iterate(outs, max, uploads, L) == r;
      var k: nat := r.next - L.next;
      assert k == (r.next - P.next) + 1;
      assert Steps(outs, max, uploads, L, k) == Steps(outs, max, uploads, P, k - 1);
    } else {
      assert Iterate(outs, max, uploads, L) == L;
      assert Steps(outs, max, uploads, L, 0) == L;
    }
  }

  /** The loop runs the body on a prefix of the list, every check before
      each of those iterations found `shouldContinue` true, and it stops at
      the end of the list or at the first check that finds it false: no
      later article is ever staged. */
  lemma {:induction false} IterateStopsAtFirstTrip(outs: seq<Staged>, max: Option<nat>, uploads: Uploads,
                                                  L: Loop)
    requires L.next <= |outs|
    ensures var r := Iterate(outs, max, uploads, L);
      && r == Steps(outs, max, uploads, L, r.next - L.next)
      && (forall k :: 0 <= k < r.next - L.next ==> Steps(outs, max, uploads, L, k).state.shouldContinue)
      && (r.next == |outs| || !r.state.shouldContinue)
    decreases |outs| - L.next
  {
    IterateIsSteps(outs, max, uploads, L);
    if L.next < |outs| && L.state.shouldContinue {
      var P := Process(outs, max, uploads, L);
      IterateStopsAtFirstTrip(outs, max, uploads, P);
      var n := Iterate(outs, max, uploads, P).next - L.next;
      assert Iterate(outs, max, uploads, L).next - L.next == n;
      forall k | 0 <= k < n
        ensures Steps(outs, max, uploads, L, k).state.shouldContinue
      {
        if k > 0 {
          assert Steps(outs, max, uploads, L, k) == Steps(outs, max, uploads, P, k - 1);
        }
      }
    }
  }

  /** Once the tracker has tripped it stays tripped, however many loop
      bodies follow. */
  lemma {:induction false} StepsNeverRearm(outs: seq<Staged>, max: Option<nat>, uploads: Uploads, L: Loop, k: nat)
    requires L.next + k <= |outs|
    requires !L.state.shouldContinue
    ensures !Steps(outs, max, uploads, L, k).state.shouldContinue
    decreases k
  {
    if k > 0 {
      StepsNeverRearm(outs, max, uploads, Process(outs, max, uploads, L), k - 1);
    }
  }

  /** The invariant at the end of a run over a non-empty listing. */
  lemma RunKeepsInv(refs: seq<Article>, creds: Credentials, max: Option<nat>, uploads: Uploads)
    requires |refs| > 0
    ensures var r := FetchZendeskArticles(Some(refs), creds, max, uploads);
      r.Finished? && Inv(StageAll(refs, creds), max, r.run)
  {
    var outs := StageAll(refs, creds);
    InvStart(outs, max);
    IterateKeepsInv(outs, max, uploads, Start);
  }

  /** A run over a non-empty listing stops at the end of the list or with
      the flag down, and every task staged up to there is pushed or left in
      the buffer, and every file recorded, once and in list order. */
  lemma RunAccountsOnce(refs: seq<Article>, creds: Credentials, max: Option<nat>, uploads: Uploads)
    requires |refs| > 0
    ensures var outs := StageAll(refs, creds);
      var r := FetchZendeskArticles(Some(refs), creds, max, uploads);
      && r.Finished?
      && (r.run.next == |refs| || !r.run.state.shouldContinue)
      && Flatten(r.run.batches) + r.run.buffer == Produced(outs[..r.run.next])
      && r.run.files == WrittenFiles(outs[..r.run.next])
  {
    RunKeepsInv(refs, creds, max, uploads);
  }

  /** The pushed batches of a run: all full but the last, none empty, and a
      buffer left over only when the run broke early or the last article
      threw while staging. */
  lemma RunBatchShapes(refs: seq<Article>, creds: Credentials, max: Option<nat>, uploads: Uploads)
    requires |refs| > 0
    ensures var outs := StageAll(refs, creds);
      var r := FetchZendeskArticles(Some(refs), creds, max, uploads);
      && r.Finished?
      && |r.run.buffer| < BatchSize
      && (forall b :: 0 <= b < |r.run.batches| ==> 0 < |r.run.batches[b]| <= BatchSize)
      && (forall b :: 0 <= b < |r.run.batches| - 1 ==> |r.run.batches[b]| == BatchSize)
      && (r.run.next == |refs| && !outs[|refs| - 1].outcome.Raised? ==> r.run.buffer == [])
  {
    var outs := StageAll(refs, creds);
    InvStart(outs, max);
    IterateKeepsInv(outs, max, uploads, Start);
    var L := Iterate(outs, max, uploads, Start);
    assert FetchZendeskArticles(Some(refs), creds, max, uploads) == Finished(UpdatedMessage, L);
    assert Batched(outs, L);
  }

  /** The tracker a run leaves behind is the one its reference definition
      gives for the signals the run recorded. */
  lemma RunTracker(refs: seq<Article>, creds: Credentials, max: Option<nat>, uploads: Uploads)
    requires |refs| > 0
    ensures var r := FetchZendeskArticles(Some(refs), creds, max, uploads);
      && r.Finished?
      && r.run.state.failureCount == ConsecutiveFailures(r.run.signals)
      && (r.run.state.shouldContinue <==> !Tripped(r.run.signals, max))
  {
    RunKeepsInv(refs, creds, max, uploads);
    RecordAllFromInitial(FetchZendeskArticles(Some(refs), creds, max, uploads).run.signals, max);
  }

  /** What one loop body hands the tracker: one failure when staging threw,
      the outcomes of the pushed batch when the buffer was flushed (the batch
      numbered by how many were pushed before it), nothing otherwise; the
      tracker then takes exactly those signals. */
  lemma ProcessFeedsTracker(outs: seq<Staged>, max: Option<nat>, uploads: Uploads, L: Loop)
    requires L.next < |outs|
    ensures var r := Process(outs, max, uploads, L);
      && |L.signals| <= |r.signals| && r.signals[..|L.signals|] == L.signals
      && r.state == RecordAll(L.state, r.signals[|L.signals|..], max)
      && (r.batches == L.batches ==>
            r.signals == L.signals + (if outs[L.next].outcome.Raised? then [Failure] else []))
      && (r.batches != L.batches ==>
            && !outs[L.next].outcome.Raised?
            && |r.batches| == |L.batches| + 1 && r.batches[..|L.batches|] == L.batches
            && r.signals == L.signals + BatchSignals(uploads, |L.batches|, |r.batches[|L.batches|]|))
  {
    var staged := StageNext(outs, max, L);
    StageNextAccounts(outs, max, L);
    var r := Process(outs, max, uploads, L);
    if FlushTest(outs, L.next, |staged.buffer|) {
      var sig := BatchSignals(uploads, |L.batches|, |staged.buffer|);
      assert r.batches == L.batches + [staged.buffer];
      assert r.batches[..|L.batches|] == L.batches;
      assert r.signals[|L.signals|..] == sig;
    } else if outs[L.next].outcome.Raised? {
      assert r.signals[|L.signals|..] == [Failure];
      assert RecordAll(L.state, [Failure], max) == Record(RecordAll(L.state, [], max), Failure, max);
    } else {
      assert r.signals[|L.signals|..] == [];
    }
  }

  /** The loop's state agrees with the counts of the reference definitions,
      and the signals it recorded are the feed. */
  ghost predicate Fed(outs: seq<Staged>, uploads: Uploads, L: Loop) {
    && L.next <= |outs|
    && |L.buffer| == Pending(outs, L.next)
    && |L.batches| == Flushes(outs, L.next)
    && L.signals == Feed(outs, uploads, L.next)
  }

  /** One more article in the reference counts and the feed. */
  lemma FedStep(outs: seq<Staged>, uploads: Uploads, i: nat)
    requires i < |outs|
    ensures Pending(outs, i + 1) == (if FlushesAt(outs, i) then 0 else Pending(outs, i) + |TaskOf(outs[i])|)
    ensures Flushes(outs, i + 1) == Flushes(outs, i) + (if FlushesAt(outs, i) then 1 else 0)
    ensures Feed(outs, uploads, i + 1) == Feed(outs, uploads, i) + Contribution(outs, uploads, i)
  {
  }

  lemma FedBodyStep(outs: seq<Staged>, uploads: Uploads, L: Loop, r: Loop)
    requires L.next < |outs| && Fed(outs, uploads, L) && BodyEffect(outs, uploads, L, r)
    ensures Fed(outs, uploads, r)
  {
    var i := L.next;
    FedStep(outs, uploads, i);
    var n := Pending(outs, i) + |TaskOf(outs[i])|;
    assert FlushesAt(outs, i) == FlushTest(outs, i, n);
    if FlushesAt(outs, i) {
      assert Contribution(outs, uploads, i) == BatchSignals(uploads, Flushes(outs, i), n);
    } else {
      assert Contribution(outs, uploads, i) == (if outs[i].outcome.Raised? then [Failure] else []);
    }
  }

  lemma ProcessKeepsFed(outs: seq<Staged>, max: Option<nat>, uploads: Uploads, L: Loop)
    requires Fed(outs, uploads, L) && L.next < |outs|
    ensures Fed(outs, uploads, Process(outs, max, uploads, L))
  {
    ProcessCases(outs, max, uploads, L);
    FedBodyStep(outs, uploads, L, Process(outs, max, uploads, L));
  }

  lemma {:induction false} IterateKeepsFed(outs: seq<Staged>, max: Option<nat>, uploads: Uploads, L: Loop)
    requires Fed(outs, uploads, L)
    ensures Fed(outs, uploads, Iterate(outs, max, uploads, L))
    decreases |outs| - L.next
  {
    if L.next < |outs| && L.state.shouldContinue {
      ProcessKeepsFed(outs, max, uploads, L);
      IterateKeepsFed(outs, max, uploads, Process(outs, max, uploads, L));
    }
  }

  /** The tracker of a run is fed, article by article in list order, one
      failure per staging exception and the outcomes of each pushed batch,
      the b-th batch pushed taking `uploads(b, _)`; nothing else reaches it. */
  lemma RunFeedsTracker(outs: seq<Staged>, max: Option<nat>, uploads: Uploads)
    ensures var r := Iterate(outs, max, uploads, Start);
      r.signals == Feed(outs, uploads, r.next)
  {
    assert Fed(outs, uploads, Start);
    IterateKeepsFed(outs, max, uploads, Start);
  }

  /** A run pushes one batch per flush the staging outcomes call for. */
  lemma RunFlushCount(outs: seq<Staged>, max: Option<nat>, uploads: Uploads)
    ensures var r := Iterate(outs, max, uploads, Start);
      |r.batches| == Flushes(outs, r.next)
  {
    assert Fed(outs, uploads, Start);
    IterateKeepsFed(outs, max, uploads, Start);
  }

  /** The tracker a run leaves is the result of the signals it was fed, in
      order, from the reset. */
  lemma RunTrackerFollowsFeed(outs: seq<Staged>, max: Option<nat>, uploads: Uploads)
    ensures var r := Iterate(outs, max, uploads, Start);
      r.state == RecordAll(Initial, r.signals, max)
  {
    InvStart(outs, max);
    IterateKeepsInv(outs, max, uploads, Start);
  }

  /** With `MAX_FAILURES` 3, a first article that yields a task and three
      staging exceptions after it: the tracker trips at the fourth article,
      the loop breaks before the fifth, and the buffered task is never
      pushed. */
  lemma BreakLeavesBufferUnpushed(outs: seq<Staged>, uploads: Uploads)
    requires |outs| == 10
    requires outs[0].outcome.Task?
    requires outs[1].outcome.Raised? && outs[2].outcome.Raised? && outs[3].outcome.Raised?
    ensures var r := Iterate(outs, Some(3), uploads, Start);
      && r.next == 4 && r.state == RunState(3, false)
      && r.batches == [] && r.buffer == [outs[0].outcome.task]
  {
    var max := Some(3);
    var L1 := Process(outs, max, uploads, Start);
    assert L1.state == Initial && L1.buffer == [outs[0].outcome.task] && L1.batches == [];
    var L2 := Process(outs, max, uploads, L1);
    assert L2.state == RunState(1, true) && L2.buffer == L1.buffer && L2.batches == [];
    var L3 := Process(outs, max, uploads, L2);
    assert L3.state == RunState(2, true) && L3.buffer == L1.buffer && L3.batches == [];
    var L4 := Process(outs, max, uploads, L3);
    assert L4.state == RunState(3, false) && L4.buffer == L1.buffer && L4.batches == [];
    assert Iterate(outs, max, uploads, L4) == L4;
    assert Iterate(outs, max, uploads, L3) == L4;
    assert Iterate(outs, max, uploads, L2) == L4;
    assert Iterate(outs, max, uploads, L1) == L4;
  }

  /** An exception while staging the last article skips the final flush:
      the task buffered before it is never pushed, although the run went
      through the whole list. */
  lemma LastStagingErrorSkipsFinalFlush(outs: seq<Staged>, max: Option<nat>, uploads: Uploads)
    requires |outs| == 2 && outs[0].outcome.Task? && outs[1].outcome.Raised?
    requires max != Some(0) && max != Some(1)
    ensures var r := Iterate(outs, max, uploads, Start);
      && r.next == 2 && r.state.shouldContinue
      && r.batches == [] && r.buffer == [outs[0].outcome.task]
  {
    var L1 := Process(outs, max, uploads, Start);
    assert L1.state == Initial && L1.buffer == [outs[0].outcome.task] && L1.batches == [];
    var L2 := Process(outs, max, uploads, L1);
    assert L2.state == RunState(1, true) && L2.buffer == L1.buffer && L2.batches == [];
    assert Iterate(outs, max, uploads, L2) == L2;
    assert Iterate(outs, max, uploads, L1) == L2;
  }

  // ----- The loop as written: waiting on an empty flush -----

  /** The loop body exactly as app.js writes it. At the last index the
      buffer is flushed even when it is empty; nothing is then pushed, the
      queue's drain event never fires, and the awaited promise never settles
      (`None`: the run hangs). */
  function ProcessAsWritten(outs: seq<Staged>, max: Option<nat>, uploads: Uploads, L: Loop): (r: Option<Loop>)
    requires L.next < |outs|
    ensures r.None? ==> L.next == |outs| - 1 && L.buffer == []
    ensures r.Some? ==> r.value.next == L.next + 1
  {
    var staged := StageNext(outs, max, L);
    if !outs[L.next].outcome.Raised? && (|staged.buffer| == BatchSize || L.next == |outs| - 1) then
      if |staged.buffer| == 0 then None else Some(Flush(staged, uploads, max))
    else Some(staged)
  }

  /** The loop as written; `None` when some flush waits forever. */
  function IterateAsWritten(outs: seq<Staged>, max: Option<nat>, uploads: Uploads, L: Loop): (r: Option<Loop>)
    requires L.next <= |outs|
    ensures r.Some? ==> L.next <= r.value.next <= |outs|
    ensures r.Some? ==> r.value.next == |outs| || !r.value.state.shouldContinue
    decreases |outs| - L.next
  {
    if L.next == |outs| || !L.state.shouldContinue then Some(L)
    else
      match ProcessAsWritten(outs, max, uploads, L)
      case None => None
      case Some(P) => IterateAsWritten(outs, max, uploads, P)
  }

  /** The body as written hangs exactly when the last article is staged
      without an exception or a task while the buffer is empty; otherwise it
      does what the corrected body does. */
  lemma ProcessAsWrittenHangsOnEmptyFlush(outs: seq<Staged>, max: Option<nat>, uploads: Uploads, L: Loop)
    requires L.next < |outs|
    ensures ProcessAsWritten(outs, max, uploads, L).None? <==>
      L.next == |outs| - 1 && outs[L.next].outcome.NoTask? && L.buffer == []
    ensures ProcessAsWritten(outs, max, uploads, L).Some? ==>
      ProcessAsWritten(outs, max, uploads, L).value == Process(outs, max, uploads, L)
  {
  }

  /** Whenever the loop as written finishes, it finishes as the corrected
      loop does. */
  lemma {:induction false} AsWrittenAgreesUnlessHung(outs: seq<Staged>, max: Option<nat>, uploads: Uploads,
                                                    L: Loop)
    requires L.next <= |outs|
    ensures IterateAsWritten(outs, max, uploads, L).Some? ==>
      IterateAsWritten(outs, max, uploads, L).value == Iterate(outs, max, uploads, L)
    decreases |outs| - L.next
  {
    if L.next < |outs| && L.state.shouldContinue {
      ProcessAsWrittenHangsOnEmptyFlush(outs, max, uploads, L);
      if ProcessAsWritten(outs, max, uploads, L).Some? {
        AsWrittenAgreesUnlessHung(outs, max, uploads, Process(outs, max, uploads, L));
      }
    }
  }

  /** A listing of one URL that carries no article id: staging returns
      nothing, the last-index flush pushes nothing, and the loop as written
      never ends, while the corrected run returns its message. */
  lemma HangsOnSkippedLastArticle(creds: Credentials, max: Option<nat>, uploads: Uploads)
    ensures var refs := [Article("/hc", FetchFailed, Written)];
      && IterateAsWritten(StageAll(refs, creds), max, uploads, Start).None?
      && FetchZendeskArticles(Some(refs), creds, max, uploads)
         == Finished(UpdatedMessage, Loop(1, Initial, [], [], [], []))
  {
    var refs := [Article("/hc", FetchFailed, Written)];
    assert !MatchesAt("/hc", 0) && !MatchesAt("/hc", 1) && !MatchesAt("/hc", 2);
    assert ArticleId("/hc") == None;
    var outs := StageAll(refs, creds);
    assert outs == [Staged(NoTask, None)];
    var done := Loop(1, Initial, [], [], [], []);
    assert Process(outs, max, uploads, Start) == done;
    assert Iterate(outs, max, uploads, done) == done;
    assert Iterate(outs, max, uploads, Start) == done;
  }

  // ----- The loop as written: the `DEBUG` log in the staging catch -----

  /** The loop as written when `DEBUG` is 'true'. The catch around staging
      binds the exception to `error` but logs `err`, a name not in scope
      there, so the first staging exception raises a `ReferenceError` out of
      the loop before `handleFailure` runs, and the outer catch exits the
      process with status 1 (`None`). The flush is the corrected one. */
  function IterateDebugAsWritten(outs: seq<Staged>, max: Option<nat>, uploads: Uploads, L: Loop): (r: Option<Loop>)
    requires L.next <= |outs|
    ensures r.Some? ==> L.next <= r.value.next <= |outs|
    ensures r.Some? ==> r.value.next == |outs| || !r.value.state.shouldContinue
    ensures r.Some? ==> forall i :: L.next <= i < r.value.next ==> !outs[i].outcome.Raised?
    decreases |outs| - L.next
  {
    if L.next == |outs| || !L.state.shouldContinue then Some(L)
    else if outs[L.next].outcome.Raised? then None
    else IterateDebugAsWritten(outs, max, uploads, Process(outs, max, uploads, L))
  }

  /** `fetchZendeskArticles` as written, given the value of `DEBUG`; the
      empty flush at the last index is kept corrected. */
  function FetchAsWritten(listing: Option<seq<Article>>, creds: Credentials, max: Option<nat>,
                          uploads: Uploads, debug: bool): (r: Result)
    ensures listing.None? ==> r.Errored?
    ensures !debug ==> r == FetchZendeskArticles(listing, creds, max, uploads)
    ensures listing.Some? && |listing.value| == 0 ==> r == Finished(NoArticleMessage, Start)
    ensures listing.Some? && |listing.value| > 0 && r.Finished? ==> r.message == UpdatedMessage
  {
    match listing
    case None => Errored
    case Some(refs) =>
      if |refs| == 0 || !debug then FetchZendeskArticles(listing, creds, max, uploads)
      else
        match IterateDebugAsWritten(StageAll(refs, creds), max, uploads, Start)
        case None => Errored
        case Some(run) => Finished(UpdatedMessage, run)
  }

  /** With `DEBUG` on, the loop as written exits exactly when the corrected
      loop visits an article whose staging throws; otherwise the two end
      alike. */
  lemma {:induction false} DebugAsWrittenExitsOnStagingError(outs: seq<Staged>, max: Option<nat>,
                                                             uploads: Uploads, L: Loop)
    requires L.next <= |outs|
    ensures var c := Iterate(outs, max, uploads, L);
      IterateDebugAsWritten(outs, max, uploads, L).None? <==>
        exists i :: L.next <= i < c.next && outs[i].outcome.Raised?
    ensures IterateDebugAsWritten(outs, max, uploads, L).Some? ==>
      IterateDebugAsWritten(outs, max, uploads, L).value == Iterate(outs, max, uploads, L)
    decreases |outs| - L.next
  {
    if L.next < |outs| && L.state.shouldContinue {
      var P := Process(outs, max, uploads, L);
      var c := Iterate(outs, max, uploads, P);
      assert Iterate(outs, max, uploads, L) == c;
      if outs[L.next].outcome.Raised? {
        assert L.next < c.next;
      } else {
        DebugAsWrittenExitsOnStagingError(outs, max, uploads, P);
        assert IterateDebugAsWritten(outs, max, uploads, L) == IterateDebugAsWritten(outs, max, uploads, P);
      }
    }
  }

  /** A run as written (with the empty-flush correction kept): with `DEBUG`
      off it equals the corrected run; with it on it ends as an error exactly
      when the corrected run counts a staging exception, and otherwise ends
      as the corrected run does. */
  lemma DebugAsWrittenRun(refs: seq<Article>, creds: Credentials, max: Option<nat>, uploads: Uploads)
    requires |refs| > 0
    ensures FetchAsWritten(Some(refs), creds, max, uploads, false) == FetchZendeskArticles(Some(refs), creds, max, uploads)
    ensures var outs := StageAll(refs, creds);
      var c := FetchZendeskArticles(Some(refs), creds, max, uploads);
      && c.Finished?
      && (FetchAsWritten(Some(refs), creds, max, uploads, true).Errored? <==>
            exists i :: 0 <= i < c.run.next && outs[i].outcome.Raised?)
      && (FetchAsWritten(Some(refs), creds, max, uploads, true).Finished? ==>
            FetchAsWritten(Some(refs), creds, max, uploads, true) == c)
  {
    DebugAsWrittenExitsOnStagingError(StageAll(refs, creds), max, uploads, Start);
  }

  /** One article whose fetch fails: with `DEBUG` on, the run as written
      exits with status 1 and counts no failure, while the corrected run
      counts one failure and returns 'KB has been updated'. */
  lemma DebugExitsOnFailedFetch(creds: Credentials, max: Option<nat>, uploads: Uploads)
    ensures var refs := [Article("/12-a", FetchFailed, Written)];
      && FetchAsWritten(Some(refs), creds, max, uploads, true) == Errored
      && FetchZendeskArticles(Some(refs), creds, max, uploads)
         == Finished(UpdatedMessage, Loop(1, HandleFailure(Initial, max), [], [], [], [Failure]))
  {
    var refs := [Article("/12-a", FetchFailed, Written)];
    assert Strings.DigitRun("/12-a", 1) == 2;
    assert MatchesAt("/12-a", 0);
    assert ArticleId("/12-a").Some?;
    var outs := StageAll(refs, creds);
    assert outs == [Staged(Raised, None)];
    var done := Loop(1, HandleFailure(Initial, max), [], [], [], [Failure]);
    assert Process(outs, max, uploads, Start) == done;
    assert Iterate(outs, max, uploads, done) == done;
    assert Iterate(outs, max, uploads, Start) == done;
  }
}
