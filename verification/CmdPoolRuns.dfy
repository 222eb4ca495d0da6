/**
  Main results about the command-buffer pool (src/rendervulkan.cpp), over every run of any number of threads: where
  the buffers are, what a collection leaves behind, and when a buffer is recycled while the GPU still executes it.
*/
module CmdPoolRuns {
  import opened Options
  import opened CmdPool
  import ThreadIds

  lemma StepKeepsInv(s: System, e: Event)
    requires Inv(s) && Enabled(s, e)
    ensures Inv(Apply(s, e))
  {
    QueuedStep(s, e);
    LoggedStep(s, e);
    SubmitsInOrderStep(s, e);
    PlacedStep(s, e);
    UnusedCompletedStep(s, e);
    forall t: ThreadId ensures ThreadInv(Apply(s, e), t) {
      ThreadStep(s, e, t);
    }
    forall t: ThreadId, u: ThreadId ensures TakenOnce(Apply(s, e), t, u) {
      TakenOnceStep(s, e, t, u);
    }
    hide Apply, Enabled, ThreadInv, TakenOnce, Logged, Queued, SubmitsInOrder, Placed, Tracked, UnusedCompleted;
  }

  lemma StartIsInv()
    ensures Inv(START)
  {
    assert PendingAbove(START, 0);
  }

  lemma {:induction false} RunKeepsInv(s: System, run: seq<System>, i: nat)
    requires Inv(s) && IsRunFrom(s, run) && i < |run|
    ensures Inv(run[i])
  {
    hide Inv, Apply, Enabled;
    if i > 0 {
      RunKeepsInv(s, run, i - 1);
      assert Next(run[i - 1], run[i]);
      var e :| Enabled(run[i - 1], e) && run[i] == Apply(run[i - 1], e);
      StepKeepsInv(run[i - 1], e);
    }
  }

  lemma ReachableKeepsInv(run: seq<System>, i: nat)
    requires IsRun(run) && i < |run|
    ensures Inv(run[i])
  {
    StartIsInv();
    RunKeepsInv(START, run, i);
  }

  /** In every reachable state the pending keys are a suffix of the numbers `submit` returned. */
  lemma PendingIsSuffixOfSubmissions(run: seq<System>, i: nat)
    requires IsRun(run) && i < |run|
    ensures exists c: nat :: c <= |run[i].log| && run[i].pool.pending.Keys == set n | n in run[i].log[c..]
  {
    ReachableKeepsInv(run, i);
    var s := run[i];
    var cut: nat :| PendingAbove(s, cut);
    hide Threads, SubmitsInOrder, Placed, Tracked, UnusedCompleted;
    var c := FirstAbove(s.log, cut);
    forall k ensures k in s.pool.pending <==> k in s.log[c..] {
      if k in s.pool.pending {
        var j :| 0 <= j < |s.log| && s.log[j] == k;
        assert s.log[c..][j - c] == k;
      }
    }
    assert s.pool.pending.Keys == set n | n in s.log[c..];
  }

  lemma {:induction false} FirstAbove(log: seq<nat>, cut: nat) returns (c: nat)
    requires Increasing(log)
    ensures c <= |log|
    ensures forall i :: 0 <= i < |log| ==> (i < c <==> log[i] <= cut)
  {
    c := 0;
    while c < |log| && log[c] <= cut
      invariant c <= |log| && forall i :: 0 <= i < c ==> log[i] <= cut
    {
      c := c + 1;
    }
  }

  ghost predicate IsPending(s: System, b: BufferId) {
    exists k :: k in s.pool.pending && s.pool.pending[k] == b
  }

  /**
    In every reachable state each buffer ever created is in exactly one of held, pending, unused and freed, is
    filed under one key only and is unused at most once. If the GPU was given its submissions in the order of their
    numbers, the last submission of an unused buffer has completed.
  */
  lemma BuffersHaveOnePlace(run: seq<System>, i: nat, b: BufferId)
    requires IsRun(run) && i < |run| && b < run[i].pool.created
    ensures var s := run[i];
            && (b in s.held <==> !IsPending(s, b) && b !in s.pool.unused && b !in s.freed)
            && (IsPending(s, b) <==> b !in s.held && b !in s.pool.unused && b !in s.freed)
            && (b in s.pool.unused <==> b !in s.held && !IsPending(s, b) && b !in s.freed)
            && (b in s.freed <==> b !in s.held && !IsPending(s, b) && b !in s.pool.unused)
    ensures var pending := run[i].pool.pending;
            forall j, k :: j in pending && k in pending && pending[j] == pending[k] ==> j == k
    ensures NoDuplicates(run[i].pool.unused)
    ensures b in run[i].pool.unused && Increasing(run[i].pool.queue) ==>
              b in run[i].lastSubmission && Completed(run[i], run[i].lastSubmission[b])
  {
    ReachableKeepsInv(run, i);
    hide Threads, SubmitsInOrder, Logged, Queued;
    assert InOnePlace(run[i], b);
    assert IsPending(run[i], b) <==> Filed(run[i], b);
  }

  /** Submissions made through `submit` enter the queue in the order of their numbers. */
  lemma SubmissionsStayInOrder(run: seq<System>, k: nat, i: nat, j: nat)
    requires IsRun(run) && k < |run| && i < j < |run[k].pool.queue|
    requires FromSubmit(run[k], run[k].pool.queue[i]) && FromSubmit(run[k], run[k].pool.queue[j])
    ensures run[k].pool.queue[i] < run[k].pool.queue[j]
  {
    ReachableKeepsInv(run, k);
    hide Logged, Queued, Threads, Placed, Tracked, UnusedCompleted;
  }

  /** So what overtakes one is always a direct submission. */
  lemma OvertakenOnlyDirectly(run: seq<System>, k: nat, i: nat, j: nat)
    requires IsRun(run) && k < |run| && i < j < |run[k].pool.queue|
    requires FromSubmit(run[k], run[k].pool.queue[j]) && run[k].pool.queue[i] > run[k].pool.queue[j]
    ensures !FromSubmit(run[k], run[k].pool.queue[i])
  {
    if FromSubmit(run[k], run[k].pool.queue[i]) {
      SubmissionsStayInOrder(run, k, i, j);
    }
  }

  // ----- Recycling too early -----

  /** A buffer filed under n is recycled along the run though the GPU still has to execute it. */
  ghost predicate RecycledEarly(run: seq<System>, n: nat) {
    exists i :: 0 < i < |run| && n in run[i - 1].pool.pending && n !in run[i].pool.pending && !Completed(run[i], n)
  }

  lemma OnlyResetRecycles(s: System, e: Event, n: nat)
    requires Enabled(s, e) && n in s.pool.pending && n !in Apply(s, e).pool.pending
    ensures e.Reset? && n <= s.PcOf(e.t).sequence
  {}

  lemma NotOvertakenStays(s: System, e: Event, n: nat)
    requires Inv(s) && Enabled(s, e) && n in s.pool.queue && !Overtaken(s, n)
    ensures n in Apply(s, e).pool.queue && !Overtaken(Apply(s, e), n)
  {
    QueuedStep(s, e);
    var q, q' := s.pool.queue, Apply(s, e).pool.queue;
    var k :| 0 <= k < |q| && q[k] == n;
    assert q'[k] == n;
    forall i, j | 0 <= i < j < |q'| && q'[j] == n
      ensures q'[i] <= n
    {
      assert j == k;
      assert q[j] == n && q'[i] == q[i];
    }
  }

  /** Along the run n either was completed to begin with or is never overtaken. */
  lemma {:induction false} StaysInTurn(s: System, run: seq<System>, n: nat, i: nat)
    requires Inv(s) && IsRunFrom(s, run) && i < |run| && n in s.pool.queue
    requires Completed(s, n) || !Overtaken(s, n)
    ensures Completed(run[i], n) || (n in run[i].pool.queue && !Overtaken(run[i], n))
  {
    hide Apply, Enabled, Completed, Overtaken;
    if i > 0 {
      StaysInTurn(s, run, n, i - 1);
      RunKeepsInv(s, run, i - 1);
      assert Next(run[i - 1], run[i]);
      var e :| Enabled(run[i - 1], e) && run[i] == Apply(run[i - 1], e);
      if Completed(run[i - 1], n) {
        CompletedStays(run[i - 1], e, n);
      } else {
        NotOvertakenStays(run[i - 1], e, n);
      }
    }
  }

  /** A step that recycles n recycles it completed. */
  lemma RecycledInTurn(p: System, e: Event, n: nat)
    requires Inv(p) && Enabled(p, e) && n in p.pool.pending && n !in Apply(p, e).pool.pending
    requires Completed(p, n) || !Overtaken(p, n)
    ensures Completed(Apply(p, e), n)
  {
    OnlyResetRecycles(p, e, n);
    CollectedHasCompleted(p, e.t, n);
    hide Apply, Enabled, Completed, Overtaken;
    CompletedStays(p, e, n);
  }

  lemma InTurnIsNotRecycledEarly(s: System, run: seq<System>, n: nat)
    requires Inv(s) && IsRunFrom(s, run) && n in s.pool.queue
    requires Completed(s, n) || !Overtaken(s, n)
    ensures !RecycledEarly(run, n)
  {
    hide Inv, Apply, Enabled, Completed, Overtaken;
    forall i | 0 < i < |run| && n in run[i - 1].pool.pending && n !in run[i].pool.pending
      ensures Completed(run[i], n)
    {
      var p := run[i - 1];
      RunKeepsInv(s, run, i - 1);
      StaysInTurn(s, run, n, i - 1);
      assert Next(p, run[i]);
      var e :| Enabled(p, e) && run[i] == Apply(p, e);
      RecycledInTurn(p, e, n);
    }
  }

  lemma Prepend(s: System, e: Event, rest: seq<System>, n: nat) returns (run: seq<System>)
    requires Enabled(s, e) && IsRunFrom(Apply(s, e), rest) && RecycledEarly(rest, n)
    ensures IsRunFrom(s, run) && RecycledEarly(run, n)
  {
    hide Enabled, Apply, Completed;
    run := [s] + rest;
    assert Next(s, Apply(s, e));
    assert forall i :: 0 < i < |run| ==> run[i] == rest[i - 1];
    forall i | 0 < i < |run| ensures Next(run[i - 1], run[i]) {
      if i > 1 { assert Next(rest[i - 2], rest[i - 1]); }
    }
    var i :| 0 < i < |rest| && n in rest[i - 1].pool.pending && n !in rest[i].pool.pending && !Completed(rest[i], n);
    assert run[i] == rest[i - 1] && run[i + 1] == rest[i];
  }

  /** A thread that has not done anything yet. */
  lemma SpareThread(pcs: map<ThreadId, Pc>) returns (t: ThreadId)
    ensures t !in pcs
  {
    t := ThreadIds.Bound(pcs.Keys);
  }

  /** Waiting for an overtaken submission ends too early, and recycles its buffer. */
  lemma WaitRecyclesEarly(s: System, n: nat, i: nat, j: nat) returns (run: seq<System>)
    requires Queued(s) && s.lock.None? && n in s.pool.pending && s.done <= j && i < j < |s.pool.queue|
    requires s.pool.queue[j] == n && s.pool.queue[i] > n
    ensures IsRunFrom(s, run) && RecycledEarly(run, n)
  {
    var t := SpareThread(s.pcs);
    var s1 := s.(done := if s.done <= i then i + 1 else s.done);
    var s2 := s1.Go(t, Waiting(n, true));
    var s3 := s2.Go(t, Collecting(n));
    var s4 := s3.(pool := AfterReset(s3.pool, n)).Go(t, Idle);
    LargestBounds(s1.pool.queue, s1.done);
    NotYetCompleted(s4, n, j);
    hide Largest, Completed, AfterReset;
    ResetTakes(s3.pool, n);
    run := [s, s1, s2, s3, s4];
    assert n in run[3].pool.pending && n !in run[4].pool.pending && !Completed(run[4], n);
    StepTo([s], s, GpuCompletes(s1.done), s1);
    StepTo([s, s1], s1, BeginWait(t, n, true), s2);
    StepTo([s, s1, s2], s2, EndWait(t), s3);
    StepTo([s, s1, s2, s3], s3, Reset(t), s4);
    assert run == [s, s1, s2, s3] + [s4];
  }

  lemma ResetTakes(p: Pool, n: nat)
    requires n in p.pending
    ensures n !in AfterReset(p, n).pending && AfterReset(p, n).queue == p.queue
  {}

  /** The same when a `submit` is going on, which ends first. */
  lemma OvertakenIsRecycledEarly(s: System, n: nat, i: nat, j: nat) returns (run: seq<System>)
    requires Inv(s) && n in s.pool.pending && s.done <= j && i < j < |s.pool.queue|
    requires s.pool.queue[j] == n && s.pool.queue[i] > n
    ensures IsRunFrom(s, run) && RecycledEarly(run, n)
    decreases if s.lock.None? then 0 else if s.PcOf(s.lock.value).Enqueued? then 1 else 2
  {
    if s.lock.Some? {
      var t := s.lock.value;
      assert ThreadInv(s, t);
      var e := if s.PcOf(t).Enqueued? then File(t) else Enqueue(t);
      StepKeepsInv(s, e);
      hide Inv, IsRunFrom, RecycledEarly;
      var rest := OvertakenIsRecycledEarly(Apply(s, e), n, i, j);
      run := Prepend(s, e, rest, n);
    } else {
      run := WaitRecyclesEarly(s, n, i, j);
    }
  }

  lemma NotYetCompleted(s: System, n: nat, j: nat)
    requires NoDuplicates(s.pool.queue) && s.done <= j < |s.pool.queue| && s.pool.queue[j] == n
    ensures !Completed(s, n)
  {}

  /**
    From any state on, the buffer of a pending submission can be recycled before the GPU is through with it exactly
    when it has not completed and a submission with a larger number went ahead of it into the queue.
  */
  lemma EarlyRecyclingIff(s: System, n: nat)
    requires Inv(s) && n in s.pool.pending
    ensures (exists run :: IsRunFrom(s, run) && RecycledEarly(run, n)) <==> Overtaken(s, n) && !Completed(s, n)
  {
    var cut: nat :| PendingAbove(s, cut);
    assert n in s.log && n in s.pool.queue;
    if Overtaken(s, n) && !Completed(s, n) {
      var i, j :| 0 <= i < j < |s.pool.queue| && s.pool.queue[j] == n && s.pool.queue[i] > n;
      var run := OvertakenIsRecycledEarly(s, n, i, j);
      assert IsRunFrom(s, run) && RecycledEarly(run, n);
    } else {
      forall run | IsRunFrom(s, run) ensures !RecycledEarly(run, n) {
        InTurnIsNotRecycledEarly(s, run, n);
      }
    }
  }

  /** One thread is about to submit through `submit`, another has taken the next number directly. */
  const BOTH_NUMBERED: System :=
    System(Pool(2, [], map[], [], 1), 0, Some(0), map[0 := 0], {}, map[0 := Numbered(1, 0), 1 := NumberedDirectly(2)],
           [], map[])

  lemma BothCanBeNumbered() returns (run: seq<System>)
    ensures run != [] && IsRun(run) && run[|run| - 1] == BOTH_NUMBERED
  {
    var s1 := START.Go(0, Allocating);
    var s2 := s1.(pool := Pool(0, [], map[], [], 1), held := map[0 := 0]).Go(0, Idle);
    var s3 := s2.(pool := Pool(1, [], map[], [], 1), lock := Some(0)).Go(0, Numbered(1, 0));
    hide Completed, Overtaken, Largest, IsRunFrom;
    StartRun();
    StepTo([START], START, TakeUnused(0), s1);
    StepTo([START, s1], s1, Allocate(0, true), s2);
    StepTo([START, s1, s2], s2, Number(0, 0), s3);
    StepTo([START, s1, s2, s3], s3, NumberDirectly(1), BOTH_NUMBERED);
    run := [START, s1, s2, s3] + [BOTH_NUMBERED];
  }

  /** It does happen: a direct submission takes the next number and gets into the queue first. */
  lemma DirectSubmissionCanOvertake() returns (run: seq<System>)
    ensures run != [] && IsRun(run) && 1 in run[|run| - 1].pool.pending
    ensures Overtaken(run[|run| - 1], 1) && !Completed(run[|run| - 1], 1)
  {
    var s4 := BOTH_NUMBERED;
    var s5 := s4.(pool := Pool(2, [2], map[], [], 1)).Go(1, Idle);
    var s6 := s5.(pool := Pool(2, [2] + [1], map[], [], 1)).Go(0, Enqueued(1, 0));
    var s7 := s6.(pool := Pool(2, [2] + [1], map[1 := 0], [], 1), held := map[], log := [1],
                  lastSubmission := map[0 := 1], lock := None).Go(0, Idle);
    hide Completed, Overtaken, Largest, IsRunFrom;
    run := BothCanBeNumbered();
    StepTo(run, s4, EnqueueDirectly(1), s5);
    run := run + [s5];
    StepTo(run, s5, Enqueue(0), s6);
    run := run + [s6];
    StepTo(run, s6, File(0), s7);
    run := run + [s7];
    OvertakenInQueue(s7);
  }

  lemma StartRun()
    ensures IsRunFrom(START, [START])
  {}

  lemma StepTo(run: seq<System>, s: System, e: Event, s': System)
    requires run != [] && IsRunFrom(run[0], run) && run[|run| - 1] == s && Enabled(s, e) && s' == Apply(s, e)
    ensures IsRunFrom(run[0], run + [s'])
  {
    assert Next(s, s');
  }

  lemma OvertakenInQueue(s: System)
    requires s.pool.queue == [2] + [1] && s.done == 0
    ensures Overtaken(s, 1) && !Completed(s, 1)
  {
    assert s.pool.queue[1] == 1 && s.pool.queue[0] > 1;
  }

  // ----- Collecting -----

  lemma NoneUpToCut(s: System, cut: nat, n: nat)
    requires PendingAbove(s, cut) && n <= cut
    ensures NonePendingUpTo(s, n)
  {}

  lemma PendingAfterReset(s: System, t: ThreadId)
    requires Logged(s) && Enabled(s, Reset(t))
    ensures s.PcOf(t).sequence in s.log ==> NonePendingUpTo(Apply(s, Reset(t)), s.PcOf(t).sequence)
  {
    var cut: nat :| PendingAbove(s, cut);
    var n := s.PcOf(t).sequence;
    var cut' := if n in s.pool.pending then n else cut;
    assert PendingAbove(Apply(s, Reset(t)), cut');
    if n in s.log {
      assert n <= cut';
      NoneUpToCut(Apply(s, Reset(t)), cut', n);
    }
  }

  /**
    When a thread collects sequence number n, it ends with nothing pending up to n exactly when n came from
    `submit` (even if another thread collected n first) or nothing that old was pending anyway. A number from
    a direct submission was never filed, and collecting it is a no-op.
  */
  lemma CollectionIsComplete(run: seq<System>, i: nat, t: ThreadId)
    requires IsRun(run) && i < |run| && Enabled(run[i], Reset(t))
    ensures var n := run[i].PcOf(t).sequence;
            NonePendingUpTo(Apply(run[i], Reset(t)), n) <==> n in run[i].log || NonePendingUpTo(run[i], n)
    ensures run[i].PcOf(t).sequence !in run[i].log ==> Apply(run[i], Reset(t)).pool == run[i].pool
  {
    ReachableKeepsInv(run, i);
    PendingAfterReset(run[i], t);
    var cut: nat :| PendingAbove(run[i], cut);
  }

  /** Nothing up to n is pending or on its way to be. */
  ghost predicate QuietUpTo(s: System, n: nat) {
    && n <= s.pool.seqNo && NonePendingUpTo(s, n)
    && forall t: ThreadId :: InSubmit(s.PcOf(t)) ==> s.PcOf(t).n > n
  }

  lemma StaysQuiet(s: System, e: Event, n: nat)
    requires QuietUpTo(s, n) && Enabled(s, e)
    ensures QuietUpTo(Apply(s, e), n)
  {
    hide Counter;
    var s' := Apply(s, e);
    if e.File? || e.Enqueue? {
      assert InSubmit(s.PcOf(e.t));
    }
    forall t: ThreadId | InSubmit(s'.PcOf(t))
      ensures s'.PcOf(t).n > n
    {
      assert InSubmit(s.PcOf(t)) || e.Number?;
    }
  }

  /** Numbers handed out earlier that are no longer pending or being filed never become pending again. */
  lemma {:induction false} CollectedForGood(run: seq<System>, i: nat, j: nat, n: nat)
    requires IsRun(run) && i <= j < |run| && QuietUpTo(run[i], n)
    ensures QuietUpTo(run[j], n)
    decreases j
  {
    hide QuietUpTo, Apply, Enabled;
    if i < j {
      CollectedForGood(run, i, j - 1, n);
      assert Next(run[j - 1], run[j]);
      var e :| Enabled(run[j - 1], e) && run[j] == Apply(run[j - 1], e);
      StaysQuiet(run[j - 1], e, n);
    }
  }

  /** After `wait(n)` on a number that `submit` returned, nothing up to n is ever pending again. */
  lemma WaitCollectsForGood(run: seq<System>, i: nat, j: nat, t: ThreadId)
    requires IsRun(run) && i < j < |run|
    requires Enabled(run[i], Reset(t)) && run[i + 1] == Apply(run[i], Reset(t))
    requires run[i].PcOf(t).sequence in run[i].log
    ensures NonePendingUpTo(run[j], run[i].PcOf(t).sequence)
  {
    ReachableKeepsInv(run, i);
    PendingAfterReset(run[i], t);
    var n := run[i].PcOf(t).sequence;
    var s' := run[i + 1];
    forall u: ThreadId ensures !InSubmit(s'.PcOf(u)) {
      assert ThreadInv(run[i], u);
    }
    assert n <= run[i].pool.seqNo;
    CollectedForGood(run, i + 1, j, n);
  }

  // ----- Calls that nothing comes between -----

  /** `commandBuffer` on its own: the event that looks for an unused buffer, and the one that allocates if it must. */
  ghost function AfterCommandBuffer(s: System, t: ThreadId, allocates: bool): System
    requires Enabled(s, TakeUnused(t))
  {
    var s1 := Apply(s, TakeUnused(t));
    if s1.PcOf(t).Allocating? then Apply(s1, Allocate(t, allocates)) else s1
  }

  /** It is the call of the pool, and gives the buffer to the thread. */
  lemma CommandBufferIsItsSteps(s: System, t: ThreadId, allocates: bool)
    requires Enabled(s, TakeUnused(t))
    ensures var s', (pool, buffer) := AfterCommandBuffer(s, t, allocates), AfterTake(s.pool, allocates);
            && s'.pool == pool && s'.PcOf(t).Idle?
            && s'.held == if buffer.Some? then s.held[buffer.value := t] else s.held
  {}

  /** A buffer that is unused is handed out before any is allocated, the one recycled last; and then it is held. */
  lemma UnusedComeFirst(s: System, t: ThreadId, allocates: bool)
    requires Inv(s) && Enabled(s, TakeUnused(t))
    ensures var s' := AfterCommandBuffer(s, t, allocates);
            && s'.pool.pending == s.pool.pending && s'.pool.seqNo == s.pool.seqNo && s'.pool.queue == s.pool.queue
            && s'.pool.created == s.pool.created + (if s.pool.unused == [] && allocates then 1 else 0)
            && if s.pool.unused != [] then
                 var b := s.pool.unused[|s.pool.unused| - 1];
                 s'.pool.unused + [b] == s.pool.unused && b !in s.held && s'.held == s.held[b := t]
               else
                 && s'.pool.unused == []
                 && s'.held == if allocates then s.held[s.pool.created := t] else s.held
  {
    if s.pool.unused != [] {
      assert InOnePlace(s, s.pool.unused[|s.pool.unused| - 1]);
    }
  }

  /** `submit` on its own: it returns the next number, and everything lands under it. */
  lemma SubmitIsItsSteps(s: System, t: ThreadId, b: BufferId)
    requires Enabled(s, Number(t, b))
    ensures var n, s1 := s.pool.seqNo + 1, Apply(s, Number(t, b));
            && Enabled(s1, Enqueue(t)) && Enabled(Apply(s1, Enqueue(t)), File(t))
            && var s' := Apply(Apply(s1, Enqueue(t)), File(t));
               && s'.pool == AfterFile(AfterEnqueue(AfterNumber(s.pool), n), n, b)
               && s'.pool.seqNo == n && s'.pool.queue == s.pool.queue + [n] && s'.pool.pending == s.pool.pending[n := b]
               && s'.pool.unused == s.pool.unused && s'.pool.created == s.pool.created
               && s'.log == s.log + [n] && s'.held == s.held - {b} && s'.lock == None
  {}

  /** A direct submission takes the next number and enters the queue, and that is all. */
  lemma DirectSubmissionIsItsSteps(s: System, t: ThreadId)
    requires Enabled(s, NumberDirectly(t))
    ensures var n, s1 := s.pool.seqNo + 1, Apply(s, NumberDirectly(t));
            && Enabled(s1, EnqueueDirectly(t))
            && var s' := Apply(s1, EnqueueDirectly(t));
               s'.pool == s.pool.(seqNo := n, queue := s.pool.queue + [n]) && s'.log == s.log && s'.held == s.held
  {}

  /** `wait` returns once the counter has come as far; with `reset` it goes on to collect, without it that is all. */
  lemma WaitCollectsIffAsked(s: System, t: ThreadId, n: nat, reset: bool)
    requires Enabled(s, BeginWait(t, n, reset)) && s.lock.None?
    ensures var s1 := Apply(s, BeginWait(t, n, reset));
            && (Enabled(s1, EndWait(t)) <==> n <= Counter(s))
            && (n <= Counter(s) ==>
                  var s2 := Apply(s1, EndWait(t));
                  && s2.pool == s.pool
                  && if reset then Enabled(s2, Reset(t)) && Apply(s2, Reset(t)).pool == AfterReset(s.pool, n)
                     else s2.PcOf(t).Idle? && !Enabled(s2, Reset(t)))
  {}

  /** `garbageCollect` collects at the counter: every buffer up to it, when that number is pending. */
  lemma GarbageCollectIsAtCounter(s: System, t: ThreadId)
    requires Inv(s) && Enabled(s, ReadCounter(t)) && s.lock.None?
    ensures var s1, n := Apply(s, ReadCounter(t)), Counter(s);
            && s1.pool == s.pool && Enabled(s1, Reset(t))
            && var s2 := Apply(s1, Reset(t));
               && (n in s.pool.pending ==>
                     NonePendingUpTo(s2, n) && forall k :: k in s.pool.pending && k > n ==>
                       k in s2.pool.pending && s2.pool.pending[k] == s.pool.pending[k])
               && (n in s.pool.pending ==> forall k :: k in s.pool.pending && k <= n ==>
                     s.pool.pending[k] in s2.pool.unused)
               && (n !in s.pool.pending ==> s2.pool == s.pool)
  {
    var s1 := Apply(s, ReadCounter(t));
    if Counter(s) in s.pool.pending {
      forall k | k in s.pool.pending && k <= Counter(s)
        ensures s.pool.pending[k] in InKeyOrder(s.pool.pending, 0, Counter(s))
      {
        InKeyOrderHas(s.pool.pending, 0, Counter(s), k);
      }
    }
  }

  lemma {:induction false} InKeyOrderHas(pending: map<nat, BufferId>, lo: nat, hi: nat, k: nat)
    requires k in pending && lo <= k <= hi
    ensures pending[k] in InKeyOrder(pending, lo, hi)
    decreases hi - lo
  {
    if lo < k {
      InKeyOrderHas(pending, lo + 1, hi, k);
    }
  }
}
