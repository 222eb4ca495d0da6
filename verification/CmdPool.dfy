/**
  The command-buffer pool of CVulkanDevice (src/rendervulkan.cpp): buffers that are pending on the GPU are
  kept in a map keyed by the timeline point their submission signals, and are recycled once that point passed.

  `CommandBufferPool` is the object itself. `System` puts any number of threads and the GPU around it. The steps of
  a submission are separate events: taking its number, entering the GPU's queue, and filing the buffer. `submit`
  goes through them under m_cmdBufMutex, ReShade's direct submissions without it, so a direct submission can come
  between any two of them. Waits, counter reads and allocations are outside of the mutex as well.
*/
module CmdPool {
  import opened Options

  type BufferId = nat
  type ThreadId = nat

  // ----- The pool -----

  /** `queue` is what the GPU was given, in the order of the QueueSubmit calls. */
  datatype Pool = Pool(seqNo: nat, queue: seq<nat>, pending: map<nat, BufferId>, unused: seq<BufferId>, created: nat)

  /** The buffers filed under the keys lo..hi, in key order: what iterating that part of the std::map visits. */
  function InKeyOrder(pending: map<nat, BufferId>, lo: nat, hi: nat): seq<BufferId>
    decreases hi + 1 - lo
  {
    if lo > hi then []
    else (if lo in pending then [pending[lo]] else []) + InKeyOrder(pending, lo + 1, hi)
  }

  function AfterNumber(p: Pool): Pool {
    p.(seqNo := p.seqNo + 1)
  }

  function AfterEnqueue(p: Pool, n: nat): Pool {
    p.(queue := p.queue + [n])
  }

  function AfterFile(p: Pool, n: nat, buffer: BufferId): Pool {
    p.(pending := p.pending[n := buffer])
  }

  function AfterReset(p: Pool, sequence: nat): Pool {
    if sequence !in p.pending then p
    else p.(pending := map k | k in p.pending && k > sequence :: p.pending[k],
            unused := p.unused + InKeyOrder(p.pending, 0, sequence))
  }

  function AfterPop(p: Pool): (Pool, Option<BufferId>) {
    if p.unused == [] then (p, None) else (p.(unused := p.unused[..|p.unused| - 1]), Some(p.unused[|p.unused| - 1]))
  }

  /** A new buffer, or none when the driver refuses to allocate. */
  function AfterAllocate(p: Pool, allocates: bool): (Pool, Option<BufferId>) {
    if allocates then (p.(created := p.created + 1), Some(p.created)) else (p, None)
  }

  /** Taking a buffer: the most recently recycled one, or a new one. */
  function AfterTake(p: Pool, allocates: bool): (Pool, Option<BufferId>) {
    if p.unused != [] then AfterPop(p) else AfterAllocate(p, allocates)
  }

  lemma {:induction false} LeastExists(s: set<nat>, x: nat)
    requires x in s
    ensures exists k :: k in s && forall j :: j in s ==> k <= j
  {
    if y: nat :| y in s && y < x {
      LeastExists(s, y);
    } else {
      assert forall j :: j in s ==> x <= j;
    }
  }

  function Least(s: set<nat>): (k: nat)
    requires s != {}
    ensures k in s && forall j :: j in s ==> k <= j
  {
    assert exists k :: k in s && forall j :: j in s ==> k <= j by {
      var x :| x in s;
      LeastExists(s, x);
    }
    var k :| k in s && forall j :: j in s ==> k <= j;
    k
  }

  /** Advancing a std::map iterator: the next larger key, None at end(). */
  function Successor(keys: set<nat>, k: nat): (next: Option<nat>)
    ensures next.None? <==> forall j :: j in keys ==> j <= k
    ensures next.Some? ==> next.value in keys && k < next.value
    ensures next.Some? ==> forall j :: j in keys && k < j ==> next.value <= j
  {
    var above := set j | j in keys && k < j;
    assert forall j :: j in above <==> j in keys && k < j;
    if above == {} then None else Some(Least(above))
  }

  lemma {:induction false} SkipAbsentKeys(pending: map<nat, BufferId>, lo: nat, mid: nat, hi: nat)
    requires lo <= mid <= hi + 1
    requires forall k :: lo <= k < mid ==> k !in pending
    ensures InKeyOrder(pending, lo, hi) == InKeyOrder(pending, mid, hi)
    decreases mid - lo
  {
    if lo < mid {
      SkipAbsentKeys(pending, lo + 1, mid, hi);
    }
  }

  lemma SuccessorIsNext(pending: map<nat, BufferId>, key: nat, last: nat)
    requires last in pending && key < last
    ensures var next := Successor(pending.Keys, key);
            && next.Some? && next.value <= last
            && InKeyOrder(pending, key + 1, last) == InKeyOrder(pending, next.value, last)
  {
    assert last in pending.Keys;
    var next := Successor(pending.Keys, key).value;
    assert forall k :: key < k < next ==> k !in pending.Keys;
    SkipAbsentKeys(pending, key + 1, next, last);
  }

  lemma Regroup<T>(done: seq<T>, x: T, rest: seq<T>)
    ensures done + ([x] + rest) == (done + [x]) + rest
  {}

  /** One turn of the recycling loop: the entry at `key` moves over. */
  lemma EntryRecycled(done: seq<BufferId>, pending: map<nat, BufferId>, key: nat, last: nat)
    requires key in pending && key <= last
    ensures done + InKeyOrder(pending, key, last) == (done + [pending[key]]) + InKeyOrder(pending, key + 1, last)
  {
    Regroup(done, pending[key], InKeyOrder(pending, key + 1, last));
  }

  class CommandBufferPool {
    var submissionSeqNo: nat
    ghost var queue: seq<nat>  // what QueueSubmit has been called for
    var pending: map<nat, Option<BufferId>>  // a unique_ptr is None once it has been moved from
    var unused: seq<BufferId>
    var created: nat

    ghost predicate Valid()
      reads this
    {
      forall k :: k in pending ==> pending[k].Some? && k <= submissionSeqNo
    }

    ghost function State(): Pool
      reads this
      requires Valid()
    {
      Pool(submissionSeqNo, queue, map k | k in pending :: pending[k].value, unused, created)
    }

    constructor ()
      ensures Valid() && State() == Pool(0, [], map[], [], 0)
    {
      submissionSeqNo, queue, pending, unused, created := 0, [], map[], [], 0;
    }

    method CommandBuffer(allocates: bool) returns (buffer: Option<BufferId>)
      requires Valid()
      modifies this
      ensures Valid() && (State(), buffer) == AfterTake(old(State()), allocates)
      ensures old(unused) != [] ==>
                && old(unused) == unused + [buffer.value] && created == old(created)
      ensures old(unused) == [] ==>
                && unused == [] && created == old(created) + (if allocates then 1 else 0)
                && buffer == if allocates then Some(old(created)) else None
    {
      buffer := None;
      if unused != [] {
        buffer := Some(unused[|unused| - 1]);
        unused := unused[..|unused| - 1];
      }
      if buffer.None? {
        if !allocates {
          return;
        }
        buffer := Some(created);
        created := created + 1;
      }
    }

    /** QueueSubmit with the timeline point to signal. */
    method QueueSubmit(point: nat)
      requires Valid()
      modifies this`queue
      ensures Valid() && State() == AfterEnqueue(old(State()), point)
    {
      queue := queue + [point];
    }

    /** Signals the next timeline point; ReShade calls this directly, which leaves a gap in the pending keys. */
    method SubmitInternal() returns (nextSeqNo: nat)
      requires Valid()
      modifies this
      ensures Valid() && nextSeqNo == old(submissionSeqNo) + 1
      ensures State() == AfterEnqueue(AfterNumber(old(State())), nextSeqNo)
    {
      var lastSubmissionSeqNo := submissionSeqNo;
      submissionSeqNo := submissionSeqNo + 1;
      nextSeqNo := lastSubmissionSeqNo + 1;
      QueueSubmit(nextSeqNo);
    }

    method Submit(buffer: BufferId) returns (nextSeqNo: nat)
      requires Valid()
      modifies this
      ensures Valid() && nextSeqNo == old(submissionSeqNo) + 1
      ensures State() == AfterFile(AfterEnqueue(AfterNumber(old(State())), nextSeqNo), nextSeqNo, buffer)
    {
      nextSeqNo := SubmitInternal();
      if nextSeqNo !in pending {  // std::map::emplace keeps an entry that is already there
        pending := pending[nextSeqNo := Some(buffer)];
      }
    }

    /** Both CORRUPTION aborts of the original are `assert false` here: they cannot be reached. */
    method ResetCmdBuffers(sequence: nat)
      requires Valid()
      modifies this
      ensures Valid() && State() == AfterReset(old(State()), sequence)
    {
      if sequence !in pending {
        return;
      }
      var first := Least(pending.Keys);
      if first > sequence {
        assert false;
      }
      ghost var before := State().pending;
      RecycleUpTo(sequence, before);
      pending := map k | k in pending && k > sequence :: pending[k];
      assert State().pending == map k | k in before && k > sequence :: before[k];
    }

    /** The loop of ResetCmdBuffers: recycles every buffer from the first entry up to the one at `last`. */
    method RecycleUpTo(last: nat, ghost before: map<nat, BufferId>)
      requires last in before && pending.Keys == before.Keys
      requires forall k :: k in before ==> pending[k] == Some(before[k])
      modifies this`unused, this`pending
      ensures unused == old(unused) + InKeyOrder(before, 0, last)
      ensures pending.Keys == before.Keys
      ensures forall k :: k in before && k > last ==> pending[k] == Some(before[k])
    {
      ghost var all := unused + InKeyOrder(before, 0, last);
      var it := Some(Least(pending.Keys));
      SkipAbsentKeys(before, 0, it.value, last);
      while true
        invariant it.Some? && it.value <= last && it.value in before
        invariant pending.Keys == before.Keys
        invariant forall k :: k in before && it.value <= k ==> pending[k] == Some(before[k])
        invariant unused + InKeyOrder(before, it.value, last) == all
        decreases last - it.value
      {
        if it.None? {
          assert false;
        }
        var key := it.value;
        EntryRecycled(unused, before, key, last);
        if pending[key].Some? {
          unused := unused + [pending[key].value];
          pending := pending[key := None];
        }
        if key == last {
          break;
        }
        SuccessorIsNext(before, key, last);
        assert pending.Keys == before.Keys;
        it := Successor(pending.Keys, key);
      }
    }
  }

  // ----- Threads and the GPU around the pool -----

  /** Where a thread stands between two of its steps. */
  datatype Pc =
    | Idle
    | Allocating
    | Numbered(n: nat, buffer: BufferId)  // in `submit`, before QueueSubmit
    | Enqueued(n: nat, buffer: BufferId)  // in `submit`, before the buffer is filed
    | NumberedDirectly(n: nat)            // in a direct submitInternal, before QueueSubmit
    | Waiting(sequence: nat, reset: bool)
    | Collecting(sequence: nat)

  datatype System = System(
    pool: Pool,
    done: nat,                      // how many entries of the queue the GPU has completed, in the queue's order
    lock: Option<ThreadId>,         // m_cmdBufMutex
    held: map<BufferId, ThreadId>,  // buffers in a unique_ptr of some thread
    freed: set<BufferId>,
    pcs: map<ThreadId, Pc>,
    log: seq<nat>,                  // every sequence number `submit` returned so far
    lastSubmission: map<BufferId, nat>)
  {
    function PcOf(t: ThreadId): Pc { if t in pcs then pcs[t] else Idle }
    function Go(t: ThreadId, pc: Pc): System { this.(pcs := pcs[t := pc]) }
  }

  datatype Event =
    | TakeUnused(t: ThreadId)
    | Allocate(t: ThreadId, allocates: bool)
    | Number(t: ThreadId, buffer: BufferId)
    | Enqueue(t: ThreadId)
    | File(t: ThreadId)
    | NumberDirectly(t: ThreadId)
    | EnqueueDirectly(t: ThreadId)
    | Drop(t: ThreadId, buffer: BufferId)
    | GpuCompletes(upTo: nat)
    | BeginWait(t: ThreadId, sequence: nat, reset: bool)
    | EndWait(t: ThreadId)
    | ReadCounter(t: ThreadId)
    | Reset(t: ThreadId)

  const START := System(Pool(0, [], map[], [], 0), 0, None, map[], {}, map[], [], map[])

  /** The largest of the first n entries of the queue. */
  function Largest(queue: seq<nat>, n: nat): nat
    requires n <= |queue|
  {
    if n == 0 then 0
    else
      var before := Largest(queue, n - 1);
      if before < queue[n - 1] then queue[n - 1] else before
  }

  /** The value of the timeline semaphore: the largest point signalled so far. */
  function Counter(s: System): nat
    requires s.done <= |s.pool.queue|
  {
    Largest(s.pool.queue, s.done)
  }

  /** The GPU is through with submission n. */
  ghost predicate Completed(s: System, n: nat) {
    exists i :: 0 <= i < s.done && i < |s.pool.queue| && s.pool.queue[i] == n
  }

  ghost predicate Enabled(s: System, e: Event) {
    s.done <= |s.pool.queue| &&
    match e
    case TakeUnused(t) => s.PcOf(t).Idle? && s.lock.None?
    case Allocate(t, _) => s.PcOf(t).Allocating?
    case Number(t, b) => s.PcOf(t).Idle? && s.lock.None? && b in s.held && s.held[b] == t
    case Enqueue(t) => s.PcOf(t).Numbered?
    case File(t) => s.PcOf(t).Enqueued?
    case NumberDirectly(t) => s.PcOf(t).Idle?
    case EnqueueDirectly(t) => s.PcOf(t).NumberedDirectly?
    case Drop(t, b) => s.PcOf(t).Idle? && b in s.held && s.held[b] == t
    case GpuCompletes(n) => s.done <= n <= |s.pool.queue|
    case BeginWait(t, _, _) => s.PcOf(t).Idle?
    case EndWait(t) => s.PcOf(t).Waiting? && s.PcOf(t).sequence <= Counter(s)
    case ReadCounter(t) => s.PcOf(t).Idle?
    case Reset(t) => s.PcOf(t).Collecting? && s.lock.None?
  }

  ghost function Apply(s: System, e: Event): System
    requires Enabled(s, e)
  {
    match e
    case TakeUnused(t) =>
      var (p, b) := AfterPop(s.pool);
      if b.Some? then s.(pool := p, held := s.held[b.value := t]) else s.Go(t, Allocating)
    case Allocate(t, allocates) =>
      var (p, b) := AfterAllocate(s.pool, allocates);
      (if b.Some? then s.(pool := p, held := s.held[b.value := t]) else s).Go(t, Idle)
    case Number(t, b) =>
      s.(pool := AfterNumber(s.pool), lock := Some(t)).Go(t, Numbered(s.pool.seqNo + 1, b))
    case Enqueue(t) =>
      var pc := s.PcOf(t);
      s.(pool := AfterEnqueue(s.pool, pc.n)).Go(t, Enqueued(pc.n, pc.buffer))
    case File(t) =>
      var pc := s.PcOf(t);
      s.(pool := AfterFile(s.pool, pc.n, pc.buffer), held := s.held - {pc.buffer}, log := s.log + [pc.n],
         lastSubmission := s.lastSubmission[pc.buffer := pc.n], lock := None).Go(t, Idle)
    case NumberDirectly(t) => s.(pool := AfterNumber(s.pool)).Go(t, NumberedDirectly(s.pool.seqNo + 1))
    case EnqueueDirectly(t) => s.(pool := AfterEnqueue(s.pool, s.PcOf(t).n)).Go(t, Idle)
    case Drop(_, b) => s.(held := s.held - {b}, freed := s.freed + {b})
    case GpuCompletes(n) => s.(done := n)
    case BeginWait(t, sequence, reset) => s.Go(t, Waiting(sequence, reset))
    case EndWait(t) => s.Go(t, if s.PcOf(t).reset then Collecting(s.PcOf(t).sequence) else Idle)
    case ReadCounter(t) => s.Go(t, Collecting(Counter(s)))
    case Reset(t) => s.(pool := AfterReset(s.pool, s.PcOf(t).sequence)).Go(t, Idle)
  }

  ghost predicate Next(s: System, s': System) {
    exists e :: Enabled(s, e) && s' == Apply(s, e)
  }

  ghost predicate IsRunFrom(s: System, run: seq<System>) {
    run != [] && run[0] == s && forall i :: 0 < i < |run| ==> Next(run[i - 1], run[i])
  }

  ghost predicate IsRun(run: seq<System>) {
    IsRunFrom(START, run)
  }

  // ----- What every event keeps -----

  ghost predicate Increasing(s: seq<nat>) {
    forall i, j :: 0 <= i < j < |s| ==> s[i] < s[j]
  }

  ghost predicate NoDuplicates<T>(s: seq<T>) {
    forall i, j :: 0 <= i < j < |s| ==> s[i] != s[j]
  }

  /** The pending keys are the numbers above `cut` that `submit` returned. */
  ghost predicate PendingAbove(s: System, cut: nat) {
    forall k :: k in s.pool.pending <==> k in s.log && k > cut
  }

  ghost predicate NonePendingUpTo(s: System, n: nat) {
    forall k :: k in s.pool.pending ==> k > n
  }

  ghost predicate Filed(s: System, b: BufferId) {
    && b in s.lastSubmission
    && s.lastSubmission[b] in s.pool.pending
    && s.pool.pending[s.lastSubmission[b]] == b
  }

  /** Buffer b is held, pending, unused or freed, and only one of these. */
  ghost predicate InOnePlace(s: System, b: BufferId) {
    && (b in s.held ==> !Filed(s, b) && b !in s.pool.unused && b !in s.freed)
    && (Filed(s, b) ==> b !in s.pool.unused && b !in s.freed)
    && (b in s.pool.unused ==> b !in s.freed)
    && (b in s.held || Filed(s, b) || b in s.pool.unused || b in s.freed)
  }

  ghost predicate Placed(s: System) {
    && NoDuplicates(s.pool.unused)
    && (forall b: nat :: b < s.pool.created ==> InOnePlace(s, b))
    && (forall b: nat :: b in s.held || b in s.freed || b in s.pool.unused ==> b < s.pool.created)
  }

  /** An entry is the last submission of its buffer. */
  ghost predicate Tracked(s: System) {
    && (forall k :: k in s.pool.pending ==>
          s.pool.pending[k] in s.lastSubmission && s.lastSubmission[s.pool.pending[k]] == k)
    && (forall k :: k in s.pool.pending ==> s.pool.pending[k] < s.pool.created)
    && (forall b: nat :: b in s.pool.unused ==> b in s.lastSubmission)
  }

  ghost predicate Logged(s: System) {
    && Increasing(s.log)
    && (forall n :: n in s.log ==> n <= s.pool.seqNo && n in s.pool.queue)
    && (exists cut: nat :: PendingAbove(s, cut))
  }

  ghost predicate Queued(s: System) {
    && s.done <= |s.pool.queue|
    && NoDuplicates(s.pool.queue)
    && (forall n :: n in s.pool.queue ==> n <= s.pool.seqNo)
  }

  /** The number a thread has taken and not given to the GPU yet. */
  ghost function Taken(pc: Pc): Option<nat> {
    if pc.Numbered? || pc.NumberedDirectly? then Some(pc.n) else None
  }

  ghost predicate InSubmit(pc: Pc) {
    pc.Numbered? || pc.Enqueued?
  }

  /** What a thread knows while it stands where it does. */
  ghost predicate ThreadInv(s: System, t: ThreadId)
    requires Queued(s)
  {
    var pc := s.PcOf(t);
    && (Taken(pc).Some? ==> pc.n <= s.pool.seqNo && pc.n !in s.pool.queue)
    && (InSubmit(pc) <==> s.lock == Some(t))
    && (InSubmit(pc) ==>
          pc.buffer in s.held && s.held[pc.buffer] == t && pc.n > 0 && forall k :: k in s.log ==> k < pc.n)
    && (pc.Enqueued? ==> pc.n in s.pool.queue && pc.n <= s.pool.seqNo)
    && (pc.Collecting? ==> pc.sequence <= Counter(s))
  }

  ghost predicate TakenOnce(s: System, t: ThreadId, u: ThreadId) {
    t != u && Taken(s.PcOf(t)).Some? ==> Taken(s.PcOf(t)) != Taken(s.PcOf(u))
  }

  ghost predicate Threads(s: System)
    requires Queued(s)
  {
    && (forall t: ThreadId :: ThreadInv(s, t))
    && (forall t: ThreadId, u: ThreadId :: TakenOnce(s, t, u))
  }

  /** The number belongs to a `submit` that has reached the queue. */
  ghost predicate FromSubmit(s: System, n: nat) {
    n in s.log || (s.lock.Some? && s.PcOf(s.lock.value).Enqueued? && s.PcOf(s.lock.value).n == n)
  }

  /** Among themselves the submissions through `submit` enter the queue in the order of their numbers. */
  ghost predicate SubmitsInOrder(s: System) {
    forall i, j :: 0 <= i < j < |s.pool.queue| && FromSubmit(s, s.pool.queue[i]) && FromSubmit(s, s.pool.queue[j]) ==>
      s.pool.queue[i] < s.pool.queue[j]
  }

  /** While the whole queue is in the order of its numbers, unused buffers have completed. */
  ghost predicate UnusedCompleted(s: System) {
    Increasing(s.pool.queue) ==>
      forall b: nat :: b in s.pool.unused ==> b in s.lastSubmission && Completed(s, s.lastSubmission[b])
  }

  ghost predicate Inv(s: System) {
    && Logged(s)
    && Queued(s)
    && Threads(s)
    && SubmitsInOrder(s)
    && Placed(s)
    && Tracked(s)
    && UnusedCompleted(s)
  }

  /** Iterating over a part of the map visits exactly the buffers filed there, each once. */
  lemma {:induction false} InKeyOrderVisits(s: System, lo: nat, hi: nat)
    requires Tracked(s)
    ensures NoDuplicates(InKeyOrder(s.pool.pending, lo, hi))
    ensures forall b: nat :: b in InKeyOrder(s.pool.pending, lo, hi) <==> Filed(s, b) && lo <= s.lastSubmission[b] <= hi
    decreases hi + 1 - lo
  {
    if lo <= hi {
      InKeyOrderVisits(s, lo + 1, hi);
      var rest := InKeyOrder(s.pool.pending, lo + 1, hi);
      if lo in s.pool.pending {
        var b := s.pool.pending[lo];
        assert InKeyOrder(s.pool.pending, lo, hi) == [b] + rest;
        assert s.lastSubmission[b] == lo && b !in rest;
      } else {
        assert InKeyOrder(s.pool.pending, lo, hi) == rest;
      }
    }
  }

  lemma LargestBounds(queue: seq<nat>, n: nat)
    requires n <= |queue|
    ensures forall i :: 0 <= i < n ==> queue[i] <= Largest(queue, n)
    ensures n > 0 ==> exists i :: 0 <= i < n && queue[i] == Largest(queue, n)
  {
    if n > 0 {
      LargestBounds(queue, n - 1);
      assert n == 1 ==> queue[0] == Largest(queue, n);
    }
  }

  lemma LargestGrows(queue: seq<nat>, n: nat, m: nat)
    requires n <= m <= |queue|
    ensures Largest(queue, n) <= Largest(queue, m)
    decreases m
  {
    if n < m {
      LargestGrows(queue, n, m - 1);
    }
  }

  lemma LargestOfPrefix(queue: seq<nat>, more: seq<nat>, n: nat)
    requires n <= |queue|
    ensures Largest(queue + more, n) == Largest(queue, n)
  {
    if n > 0 {
      LargestOfPrefix(queue, more, n - 1);
    }
  }

  // ----- One step -----

  /** The queue only grows, at its end, and only by a number that was taken and not given to the GPU yet. */
  ghost predicate Appends(s: System, s': System) {
    s'.pool.queue == s.pool.queue || exists t, n :: Taken(s.PcOf(t)) == Some(n) && s'.pool.queue == s.pool.queue + [n]
  }

  lemma QueuedStep(s: System, e: Event)
    requires Queued(s) && Threads(s) && Enabled(s, e)
    ensures Queued(Apply(s, e)) && Appends(s, Apply(s, e)) && s.done <= Apply(s, e).done
    ensures s.pool.seqNo <= Apply(s, e).pool.seqNo
  {
    if e.Enqueue? || e.EnqueueDirectly? {
      assert ThreadInv(s, e.t);
      var n := s.PcOf(e.t).n;
      assert Taken(s.PcOf(e.t)) == Some(n) && Apply(s, e).pool.queue == s.pool.queue + [n];
    }
  }

  lemma CounterGrows(s: System, e: Event)
    requires Queued(s) && Threads(s) && Enabled(s, e) && Queued(Apply(s, e))
    ensures Counter(s) <= Counter(Apply(s, e))
  {
    var s' := Apply(s, e);
    QueuedStep(s, e);
    LargestGrows(s'.pool.queue, s.done, s'.done);
    if s'.pool.queue != s.pool.queue {
      LargestOfPrefix(s.pool.queue, s'.pool.queue[|s.pool.queue|..], s.done);
      assert s.pool.queue + s'.pool.queue[|s.pool.queue|..] == s'.pool.queue;
    }
  }

  lemma FiledAbove(s: System, t: ThreadId, cut: nat)
    requires Enabled(s, File(t)) && PendingAbove(s, cut)
    requires s.PcOf(t).n > 0 && forall k :: k in s.log ==> k < s.PcOf(t).n
    ensures PendingAbove(Apply(s, File(t)), if cut < s.PcOf(t).n then cut else s.PcOf(t).n - 1)
  {}

  lemma LoggedStep(s: System, e: Event)
    requires Logged(s) && Queued(s) && Threads(s) && Enabled(s, e)
    ensures Logged(Apply(s, e))
  {
    var s' := Apply(s, e);
    QueuedStep(s, e);
    var cut: nat :| PendingAbove(s, cut);
    if e.File? {
      assert ThreadInv(s, e.t);
      hide Queued, Threads, ThreadInv, Appends;
      FiledAbove(s, e.t, cut);
      var n := s.PcOf(e.t).n;
      assert forall i :: 0 <= i < |s.log| ==> s.log[i] in s.log;
      assert s'.log == s.log + [n];
    } else {
      hide Queued, Threads, ThreadInv;
      UnfiledAbove(s, e, cut);
    }
  }

  lemma UnfiledAbove(s: System, e: Event, cut: nat)
    requires Enabled(s, e) && !e.File? && PendingAbove(s, cut)
    ensures exists c: nat :: PendingAbove(Apply(s, e), c)
  {
    if e.Reset? {
      var n := s.PcOf(e.t).sequence;
      assert PendingAbove(Apply(s, e), if n in s.pool.pending then n else cut);
    } else {
      assert PendingAbove(Apply(s, e), cut);
    }
  }

  /** A buffer somebody is handed was held by nobody. */
  lemma TakenWasFree(s: System, e: Event)
    requires Placed(s) && Enabled(s, e) && (e.TakeUnused? || e.Allocate?)
    ensures forall b: nat :: b in s.held ==> b in Apply(s, e).held && Apply(s, e).held[b] == s.held[b]
  {
    if e.TakeUnused? && s.pool.unused != [] {
      var b := s.pool.unused[|s.pool.unused| - 1];
      assert b in s.pool.unused && InOnePlace(s, b);
    }
  }

  lemma OwnThreadStep(s: System, e: Event)
    requires Logged(s) && Queued(s) && Threads(s) && Enabled(s, e) && !e.GpuCompletes? && Queued(Apply(s, e))
    ensures ThreadInv(Apply(s, e), e.t)
  {
    CounterGrows(s, e);
    assert ThreadInv(s, e.t);
    hide Threads, Counter, Queued;
  }

  lemma OtherThreadStep(s: System, e: Event, t: ThreadId)
    requires Queued(s) && Threads(s) && Placed(s) && Enabled(s, e) && Queued(Apply(s, e))
    requires e.GpuCompletes? || e.t != t
    ensures ThreadInv(Apply(s, e), t)
  {
    CounterGrows(s, e);
    assert ThreadInv(s, t);
    if e.TakeUnused? || e.Allocate? {
      TakenWasFree(s, e);
    } else if !e.GpuCompletes? {
      assert ThreadInv(s, e.t) && TakenOnce(s, t, e.t);
    }
    hide Placed, Threads, Counter, Queued;
  }

  lemma ThreadStep(s: System, e: Event, t: ThreadId)
    requires Logged(s) && Queued(s) && Threads(s) && Placed(s) && Enabled(s, e) && Queued(Apply(s, e))
    ensures ThreadInv(Apply(s, e), t)
  {
    hide Logged, Queued, Threads, Placed, Apply, Enabled;
    if e.GpuCompletes? || e.t != t {
      OtherThreadStep(s, e, t);
    } else {
      OwnThreadStep(s, e);
    }
  }

  lemma TakenOnceStep(s: System, e: Event, t: ThreadId, u: ThreadId)
    requires Queued(s) && Threads(s) && Enabled(s, e)
    ensures TakenOnce(Apply(s, e), t, u)
  {
    assert TakenOnce(s, t, u) && ThreadInv(s, t) && ThreadInv(s, u);
  }

  lemma SubmitsInOrderStep(s: System, e: Event)
    requires Logged(s) && Queued(s) && Threads(s) && SubmitsInOrder(s) && Enabled(s, e)
    ensures SubmitsInOrder(Apply(s, e))
  {
    var s' := Apply(s, e);
    var q, q' := s.pool.queue, s'.pool.queue;
    QueuedStep(s, e);
    assert e.Enqueue? || e.EnqueueDirectly? ==> ThreadInv(s, e.t);
    assert |q'| > |q| ==> (e.Enqueue? || e.EnqueueDirectly?) && q' == q + [s.PcOf(e.t).n] && s.PcOf(e.t).n !in q;
    forall i, j | 0 <= i < j < |q'| && FromSubmit(s', q'[i]) && FromSubmit(s', q'[j])
      ensures q'[i] < q'[j]
    {
      assert q'[i] == q[i] && q[i] in q;
      assert j < |q| ==> q'[j] == q[j] && q[j] in q;
      FromSubmitBefore(s, e, q'[i]);
      FromSubmitBefore(s, e, q'[j]);
      hide Logged, Queued, Threads, FromSubmit, Appends;
    }
  }

  /** Only giving a number to the GPU in `submit` makes it one of `submit`. */
  lemma FromSubmitBefore(s: System, e: Event, n: nat)
    requires Logged(s) && Queued(s) && Threads(s) && Enabled(s, e) && FromSubmit(Apply(s, e), n)
    ensures FromSubmit(s, n) || (e.Enqueue? && n == s.PcOf(e.t).n)
    ensures !e.Enqueue? && n !in s.pool.queue ==> false
    ensures e.Enqueue? && FromSubmit(s, n) ==> n in s.log
  {
    if s.lock.Some? {
      assert ThreadInv(s, s.lock.value);
    }
    if e.Enqueue? || e.File? || e.Number? || e.EnqueueDirectly? || e.NumberDirectly? {
      assert ThreadInv(s, e.t);
    }
    var s' := Apply(s, e);
    hide Logged, Queued, Counter;
  }

  /** The buffer was unused, or the step is a collection that covers it. */
  ghost predicate MayBeUnused(s: System, e: Event, b: BufferId)
    requires Enabled(s, e)
  {
    b in s.pool.unused || (e.Reset? && Filed(s, b) && s.lastSubmission[b] <= s.PcOf(e.t).sequence)
  }

  lemma PlacedAfterReset(s: System, t: ThreadId)
    requires Placed(s) && Tracked(s) && Enabled(s, Reset(t))
    ensures Placed(Apply(s, Reset(t))) && Tracked(Apply(s, Reset(t)))
    ensures forall b: nat :: b in Apply(s, Reset(t)).pool.unused ==> MayBeUnused(s, Reset(t), b)
  {
    var s' := Apply(s, Reset(t));
    var n := s.PcOf(t).sequence;
    if n in s.pool.pending {
      InKeyOrderVisits(s, 0, n);
      var recycled := InKeyOrder(s.pool.pending, 0, n);
      assert s'.pool.unused == s.pool.unused + recycled;
      forall b: nat | b < s.pool.created ensures InOnePlace(s', b) {
        assert InOnePlace(s, b);
        assert Filed(s', b) <==> Filed(s, b) && s.lastSubmission[b] > n;
      }
      forall b: nat | b in recycled ensures b < s.pool.created && b !in s.pool.unused {
        assert Filed(s, b);
        assert InOnePlace(s, b);
      }
      assert forall i, j :: 0 <= i < |s.pool.unused| && 0 <= j < |recycled| ==> s.pool.unused[i] != recycled[j] by {
        assert forall j :: 0 <= j < |recycled| ==> recycled[j] in recycled;
      }
    } else {
      assert forall b: nat :: b < s.pool.created ==> InOnePlace(s, b) ==> InOnePlace(s', b);
    }
  }

  lemma PlacedAfterPop(s: System, t: ThreadId)
    requires Placed(s) && Tracked(s) && Enabled(s, TakeUnused(t))
    ensures Placed(Apply(s, TakeUnused(t))) && Tracked(Apply(s, TakeUnused(t)))
    ensures forall b: nat :: b in Apply(s, TakeUnused(t)).pool.unused ==> b in s.pool.unused
  {
    var s' := Apply(s, TakeUnused(t));
    if s.pool.unused != [] {
      assert s.pool.unused == s'.pool.unused + [s.pool.unused[|s.pool.unused| - 1]];
    }
    forall b: nat | b < s'.pool.created ensures InOnePlace(s', b) {
      assert InOnePlace(s, b);
    }
    forall b: nat | b in s'.held || b in s'.freed || b in s'.pool.unused
      ensures b < s'.pool.created
    {
      assert b in s.held || b in s.freed || b in s.pool.unused;
    }
  }

  lemma PlacedAfterAllocate(s: System, t: ThreadId, allocates: bool)
    requires Placed(s) && Tracked(s) && Enabled(s, Allocate(t, allocates))
    ensures Placed(Apply(s, Allocate(t, allocates))) && Tracked(Apply(s, Allocate(t, allocates)))
    ensures Apply(s, Allocate(t, allocates)).pool.unused == s.pool.unused
  {
    var s' := Apply(s, Allocate(t, allocates));
    forall b: nat | b < s'.pool.created ensures InOnePlace(s', b) {
      if b < s.pool.created {
        assert InOnePlace(s, b);
      }
    }
    assert forall b: nat :: b in s'.held ==> b in s.held || b == s.pool.created;
  }

  lemma PlacedAfterLeaving(s: System, e: Event, b: BufferId)
    requires Placed(s) && Tracked(s) && Logged(s) && Queued(s) && Threads(s) && Enabled(s, e)
    requires (e.File? && s.PcOf(e.t).buffer == b) || (e.Drop? && e.buffer == b)
    ensures Placed(Apply(s, e)) && Tracked(Apply(s, e))
    ensures Apply(s, e).pool.unused == s.pool.unused
  {
    var s' := Apply(s, e);
    assert ThreadInv(s, e.t);
    assert InOnePlace(s, b);
    hide Queued, Threads, ThreadInv;
    forall c: nat | c < s.pool.created ensures InOnePlace(s', c) {
      assert InOnePlace(s, c);
    }
    assert s'.pool.created == s.pool.created && s'.pool.unused == s.pool.unused;
    assert forall c: nat :: c in s'.held ==> c in s.held;
    assert forall c: nat :: c in s'.freed ==> c in s.freed || c in s.held;
  }

  lemma PlacedStep(s: System, e: Event)
    requires Placed(s) && Tracked(s) && Logged(s) && Queued(s) && Threads(s) && Enabled(s, e)
    ensures Placed(Apply(s, e)) && Tracked(Apply(s, e))
    ensures forall b: nat :: b in Apply(s, e).pool.unused ==> MayBeUnused(s, e, b)
  {
    hide Placed, Tracked, Logged, Queued, Threads;
    match e {
      case TakeUnused(t) => PlacedAfterPop(s, t);
      case Allocate(t, allocates) => PlacedAfterAllocate(s, t, allocates);
      case File(t) => PlacedAfterLeaving(s, e, s.PcOf(t).buffer);
      case Drop(_, b) => PlacedAfterLeaving(s, e, b);
      case Reset(t) => PlacedAfterReset(s, t);
      case _ => PlacedElsewhere(s, Apply(s, e));
    }
  }

  lemma PlacedElsewhere(s: System, s': System)
    requires Placed(s) && Tracked(s)
    requires s'.held == s.held && s'.freed == s.freed && s'.lastSubmission == s.lastSubmission
    requires s'.pool.pending == s.pool.pending && s'.pool.unused == s.pool.unused && s'.pool.created == s.pool.created
    ensures Placed(s') && Tracked(s')
  {
    forall b: nat | b < s'.pool.created ensures InOnePlace(s', b) {
      assert InOnePlace(s, b);
    }
  }

  // ----- Completion -----

  lemma CompletedStays(s: System, e: Event, n: nat)
    requires Queued(s) && Threads(s) && Enabled(s, e) && Completed(s, n)
    ensures Completed(Apply(s, e), n)
  {
    QueuedStep(s, e);
    var i :| 0 <= i < s.done && i < |s.pool.queue| && s.pool.queue[i] == n;
    assert Apply(s, e).pool.queue[i] == n;
  }

  /** A larger number went ahead of n into the queue. */
  ghost predicate Overtaken(s: System, n: nat) {
    exists i, j :: 0 <= i < j < |s.pool.queue| && s.pool.queue[j] == n && s.pool.queue[i] > n
  }

  /** Once the counter is at n or past it, n has completed, unless it was overtaken. */
  lemma ReachedIsCompleted(s: System, n: nat)
    requires Queued(s) && n in s.pool.queue && n <= Counter(s) && n > 0
    ensures Completed(s, n) || Overtaken(s, n)
  {
    LargestBounds(s.pool.queue, s.done);
    var j :| 0 <= j < |s.pool.queue| && s.pool.queue[j] == n;
    if s.done > 0 {
      var i :| 0 <= i < s.done && s.pool.queue[i] == Counter(s);
      if j >= s.done {
        assert i < j && s.pool.queue[i] > n;
      }
    }
  }

  lemma UnusedCompletedStep(s: System, e: Event)
    requires Inv(s) && Enabled(s, e)
    ensures UnusedCompleted(Apply(s, e))
  {
    var s' := Apply(s, e);
    PlacedStep(s, e);
    QueuedStep(s, e);
    if Increasing(s'.pool.queue) {
      QueueWasIncreasing(s.pool.queue, s'.pool.queue);
      forall b: nat | b in s'.pool.unused
        ensures b in s'.lastSubmission && Completed(s', s'.lastSubmission[b])
      {
        UnusedHasCompleted(s, e, b);
      }
    }
  }

  lemma QueueWasIncreasing(q: seq<nat>, q': seq<nat>)
    requires q <= q' && Increasing(q')
    ensures Increasing(q)
  {
    assert forall i :: 0 <= i < |q| ==> q[i] == q'[i];
  }

  /** A collection only recycles what has completed, as long as nothing in the queue was overtaken. */
  lemma CollectedHasCompleted(s: System, t: ThreadId, n: nat)
    requires Inv(s) && Enabled(s, Reset(t)) && n in s.pool.pending && n <= s.PcOf(t).sequence
    ensures Completed(s, n) || Overtaken(s, n)
  {
    assert ThreadInv(s, t);
    var cut: nat :| PendingAbove(s, cut);
    assert n in s.log && n > cut;
    hide Completed, Overtaken;
    ReachedIsCompleted(s, n);
  }

  lemma UnusedHasCompleted(s: System, e: Event, b: BufferId)
    requires Inv(s) && Enabled(s, e) && b in Apply(s, e).pool.unused && Increasing(s.pool.queue)
    ensures b in Apply(s, e).lastSubmission && Completed(Apply(s, e), Apply(s, e).lastSubmission[b])
  {
    PlacedStep(s, e);
    assert MayBeUnused(s, e, b);
    if b in s.pool.unused {
      assert InOnePlace(s, b);
      if e.File? {
        assert ThreadInv(s, e.t);
      }
    } else {
      CollectedHasCompleted(s, e.t, s.lastSubmission[b]);
    }
    hide Apply, Enabled, Logged, Placed, Tracked, Completed;
    CompletedStays(s, e, s.lastSubmission[b]);
  }
}
