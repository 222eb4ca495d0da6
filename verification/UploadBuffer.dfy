/**
  The upload ring of CVulkanDevice (src/rendervulkan.hpp, `uploadBufferData`): one thread hands out consecutive
  ranges of a mapped buffer to the command buffers it records, and starts again at offset 0 after a wait for
  the newest submission. A range must not be handed out again while the GPU may still read it.
*/
module UploadBuffer {
  import opened Options

  const SIZE: nat := 1920 * 1080 * 4
  const ALIGNMENT: nat := 16

  /** A range handed out for a command buffer, and the submission it went out with. */
  datatype Range = Range(start: nat, size: nat, commandBuffer: nat, submission: Option<nat>)

  datatype State = State(offset: nat, seqNo: nat, gpu: nat, ranges: seq<Range>)

  /** `align(what, 16)`: the next multiple of 16. */
  function Align(what: nat): (aligned: nat)
    ensures aligned % ALIGNMENT == 0 && what <= aligned < what + ALIGNMENT
  {
    (what + ALIGNMENT - 1) / ALIGNMENT * ALIGNMENT
  }

  /** The GPU may still read the range: its command buffer is being recorded or has not completed. */
  ghost predicate Live(s: State, r: Range) {
    r.size > 0 && (r.submission.None? || r.submission.value > s.gpu)
  }

  ghost predicate Disjoint(a: Range, b: Range) {
    a.start + a.size <= b.start || b.start + b.size <= a.start
  }

  /** What the buffer guarantees for range i: alignment, bounds, and no overlap with anything live. */
  ghost predicate Sound(s: State, i: nat)
    requires i < |s.ranges|
  {
    && s.ranges[i].start % ALIGNMENT == 0
    && s.ranges[i].start + s.ranges[i].size <= SIZE
    && forall j :: 0 <= j < |s.ranges| && j != i && Live(s, s.ranges[i]) && Live(s, s.ranges[j]) ==>
         Disjoint(s.ranges[i], s.ranges[j])
  }

  ghost predicate Inv(s: State) {
    && s.offset <= SIZE
    && s.gpu <= s.seqNo
    && (forall i :: 0 <= i < |s.ranges| && s.ranges[i].submission.Some? ==> s.ranges[i].submission.value <= s.seqNo)
    && (forall i :: 0 <= i < |s.ranges| && Live(s, s.ranges[i]) ==> s.ranges[i].start + s.ranges[i].size <= s.offset)
    && (forall i :: 0 <= i < |s.ranges| ==> Sound(s, i))
  }

  ghost predicate AllSubmitted(s: State) {
    forall i :: 0 <= i < |s.ranges| && s.ranges[i].size > 0 ==> s.ranges[i].submission.Some?
  }

  // ----- The operations as functions of the state -----

  /** `wait(sequence, false)`, where the GPU has come as far as `reached` when the wait returns. */
  ghost function AfterWait(s: State, sequence: nat, reached: nat): State {
    s.(offset := if s.seqNo == sequence then 0 else s.offset, gpu := reached)
  }

  ghost function AfterUpload(s: State, size: nat, commandBuffer: nat): State {
    var s1 :=
      if Align(s.offset) + size > SIZE then AfterWait(s, s.seqNo, s.seqNo) else s.(offset := Align(s.offset));
    s1.(offset := s1.offset + size, ranges := s1.ranges + [Range(s1.offset, size, commandBuffer, None)])
  }

  ghost function Tagged(r: Range, commandBuffer: nat, seqNo: nat): Range {
    if r.commandBuffer == commandBuffer && r.submission.None? then r.(submission := Some(seqNo)) else r
  }

  ghost function AfterSubmit(s: State, commandBuffer: nat): State {
    s.(seqNo := s.seqNo + 1,
       ranges := seq(|s.ranges|, i requires 0 <= i < |s.ranges| => Tagged(s.ranges[i], commandBuffer, s.seqNo + 1)))
  }

  class UploadRing {
    var offset: nat
    var submissionSeqNo: nat
    ghost var gpu: nat
    ghost var ranges: seq<Range>

    ghost function Abstract(): State
      reads this
    {
      State(offset, submissionSeqNo, gpu, ranges)
    }

    constructor ()
      ensures Abstract() == State(0, 0, 0, []) && Inv(Abstract())
    {
      offset, submissionSeqNo, gpu, ranges := 0, 0, 0, [];
    }

    /** Returns once the timeline semaphore is at least `sequence`; `reached` is where it stands by then. */
    method Wait(sequence: nat, ghost reached: nat)
      requires sequence <= reached <= submissionSeqNo && gpu <= reached
      modifies this
      ensures Abstract() == AfterWait(old(Abstract()), sequence, reached)
    {
      if submissionSeqNo == sequence {
        offset := 0;
      }
      gpu := reached;
    }

    method UploadBufferData(size: nat, ghost commandBuffer: nat) returns (start: nat)
      requires size <= SIZE && gpu <= submissionSeqNo
      modifies this
      ensures Abstract() == AfterUpload(old(Abstract()), size, commandBuffer)
      ensures ranges == old(ranges) + [Range(start, size, commandBuffer, None)]
      ensures if Align(old(offset)) + size <= SIZE then start == Align(old(offset)) && gpu == old(gpu)
              else start == 0 && gpu == submissionSeqNo
    {
      offset := Align(offset);
      if offset + size > SIZE {
        Wait(submissionSeqNo, submissionSeqNo);
      }
      start := offset;
      offset := offset + size;
      ranges := ranges + [Range(start, size, commandBuffer, None)];
    }

    method Submit(ghost commandBuffer: nat)
      modifies this
      ensures Abstract() == AfterSubmit(old(Abstract()), commandBuffer)
    {
      submissionSeqNo := submissionSeqNo + 1;
      ghost var before := old(Abstract());
      ranges := AfterSubmit(before, commandBuffer).ranges;
    }
  }

  // ----- What each operation keeps -----

  /** Completions and submissions elsewhere only make ranges less live. */
  lemma ProgressKeepsInv(s: State, s': State)
    requires Inv(s) && s.offset == s'.offset && s.ranges == s'.ranges
    requires s.gpu <= s'.gpu <= s'.seqNo && s.seqNo <= s'.seqNo
    ensures Inv(s')
  {
    assert forall j :: 0 <= j < |s.ranges| && Live(s', s.ranges[j]) ==> Live(s, s.ranges[j]);
    forall i | 0 <= i < |s.ranges| ensures Sound(s', i) {
      assert Sound(s, i);
    }
  }

  /** With every earlier range submitted, the wait leaves nothing live, so starting again at 0 is safe. */
  lemma WaitKeepsInv(s: State, sequence: nat, reached: nat)
    requires Inv(s) && sequence <= reached <= s.seqNo && s.gpu <= reached
    requires s.seqNo == sequence ==> AllSubmitted(s)
    ensures Inv(AfterWait(s, sequence, reached))
  {
    var s' := AfterWait(s, sequence, reached);
    ProgressKeepsInv(s, s.(gpu := reached));
    if s.seqNo == sequence {
      assert forall i :: 0 <= i < |s.ranges| ==> Sound(s.(gpu := reached), i) && !Live(s', s.ranges[i]);
    }
  }

  /** An upload that fits goes right behind what was handed out before, and waits for nothing. */
  lemma FittingUploadGoesBehind(s: State, size: nat, commandBuffer: nat)
    requires Align(s.offset) + size <= SIZE
    ensures var s', start := AfterUpload(s, size, commandBuffer), Align(s.offset);
            && s'.ranges == s.ranges + [Range(start, size, commandBuffer, None)]
            && s'.offset == start + size && s'.gpu == s.gpu && s'.seqNo == s.seqNo
  {}

  /** Any other waits for everything submitted, and goes to the start. */
  lemma OtherUploadStartsOver(s: State, size: nat, commandBuffer: nat)
    requires Align(s.offset) + size > SIZE
    ensures var s' := AfterUpload(s, size, commandBuffer);
            && s'.ranges == s.ranges + [Range(0, size, commandBuffer, None)]
            && s'.offset == size && s'.gpu == s.seqNo == s'.seqNo
  {}

  lemma FittingUploadKeepsInv(s: State, size: nat, commandBuffer: nat)
    requires Inv(s) && Align(s.offset) + size <= SIZE
    ensures Inv(AfterUpload(s, size, commandBuffer))
  {
    var s' := AfterUpload(s, size, commandBuffer);
    forall i | 0 <= i < |s'.ranges| ensures Sound(s', i) {
      if i < |s.ranges| {
        assert Sound(s, i);
      }
    }
  }

  lemma UploadKeepsInv(s: State, size: nat, commandBuffer: nat)
    requires Inv(s) && size <= SIZE
    requires Align(s.offset) + size > SIZE ==> AllSubmitted(s)
    ensures Inv(AfterUpload(s, size, commandBuffer))
  {
    if Align(s.offset) + size > SIZE {
      WaitKeepsInv(s, s.seqNo, s.seqNo);
      FittingUploadKeepsInv(AfterWait(s, s.seqNo, s.seqNo), size, commandBuffer);
    } else {
      FittingUploadKeepsInv(s, size, commandBuffer);
    }
  }

  /** A submission takes exactly the ranges of its command buffer that were still being recorded. */
  lemma SubmitTakesItsRanges(s: State, commandBuffer: nat)
    ensures var s' := AfterSubmit(s, commandBuffer);
            && s'.seqNo == s.seqNo + 1 && s'.offset == s.offset && s'.gpu == s.gpu && |s'.ranges| == |s.ranges|
            && forall i :: 0 <= i < |s.ranges| ==>
                 var r, r' := s.ranges[i], s'.ranges[i];
                 && r'.start == r.start && r'.size == r.size && r'.commandBuffer == r.commandBuffer
                 && r'.submission ==
                      if r.submission.None? && r.commandBuffer == commandBuffer then Some(s'.seqNo) else r.submission
  {}

  lemma SubmitKeepsInv(s: State, commandBuffer: nat)
    requires Inv(s)
    ensures Inv(AfterSubmit(s, commandBuffer))
  {
    var s' := AfterSubmit(s, commandBuffer);
    forall i | 0 <= i < |s'.ranges| ensures Sound(s', i) {
      assert Sound(s, i);
      assert forall j :: 0 <= j < |s.ranges| ==> (Live(s', s'.ranges[j]) <==> Live(s, s.ranges[j]));
    }
  }

  // ----- Main results -----

  datatype Event =
    | Upload(size: nat, commandBuffer: nat)
    | Submit(commandBuffer: nat)
    | SubmitElsewhere
    | GpuCompletes(upTo: nat)
    | Wait(sequence: nat, reached: nat)

  /** What the caller owes: sizes fit, and everything uploaded is submitted before the offset starts again. */
  ghost predicate Allowed(s: State, e: Event) {
    match e
    case Upload(size, _) => size <= SIZE && (Align(s.offset) + size > SIZE ==> AllSubmitted(s))
    case Submit(_) => true
    case SubmitElsewhere => true
    case GpuCompletes(n) => s.gpu <= n <= s.seqNo
    case Wait(n, reached) => n <= reached <= s.seqNo && s.gpu <= reached && (n == s.seqNo ==> AllSubmitted(s))
  }

  ghost function Apply(s: State, e: Event): State {
    match e
    case Upload(size, c) => AfterUpload(s, size, c)
    case Submit(c) => AfterSubmit(s, c)
    case SubmitElsewhere => s.(seqNo := s.seqNo + 1)
    case GpuCompletes(n) => s.(gpu := n)
    case Wait(n, reached) => AfterWait(s, n, reached)
  }

  ghost function After(events: seq<Event>): State {
    if events == [] then State(0, 0, 0, [])
    else Apply(After(events[..|events| - 1]), events[|events| - 1])
  }

  ghost predicate AllAllowed(events: seq<Event>) {
    events != [] ==>
      AllAllowed(events[..|events| - 1]) && Allowed(After(events[..|events| - 1]), events[|events| - 1])
  }

  ghost function Uploads(sizes: seq<nat>, commandBuffer: nat): seq<Event> {
    seq(|sizes|, i requires 0 <= i < |sizes| => Upload(sizes[i], commandBuffer))
  }

  /** How much of the buffer the sizes take. */
  ghost function Packed(sizes: seq<nat>): nat {
    if sizes == [] then 0 else Align(Packed(sizes[..|sizes| - 1])) + sizes[|sizes| - 1]
  }

  /** Uploads that fit together are packed: each starts at the first multiple of 16 behind the one before it. */
  lemma {:induction false} UploadsArePacked(sizes: seq<nat>, commandBuffer: nat)
    requires Packed(sizes) <= SIZE
    ensures var s := After(Uploads(sizes, commandBuffer));
            && s.offset == Packed(sizes) && s.gpu == 0 && |s.ranges| == |sizes|
            && forall i :: 0 <= i < |sizes| ==>
                 s.ranges[i] == Range(Align(Packed(sizes[..i])), sizes[i], commandBuffer, None)
  {
    hide AfterUpload, Align;
    if sizes != [] {
      var front, last := sizes[..|sizes| - 1], sizes[|sizes| - 1];
      UploadsArePacked(front, commandBuffer);
      var events, s := Uploads(sizes, commandBuffer), After(Uploads(front, commandBuffer));
      assert events[..|events| - 1] == Uploads(front, commandBuffer);
      FittingUploadGoesBehind(s, last, commandBuffer);
      assert After(events) == AfterUpload(s, last, commandBuffer);
      hide After, Packed;
      forall i | 0 <= i < |sizes|
        ensures After(events).ranges[i] == Range(Align(Packed(sizes[..i])), sizes[i], commandBuffer, None)
      {
        assert sizes[..i] == front[..i];
      }
    }
  }

  /**
    Over any sequence of uploads, submissions, waits, wraps and GPU progress, every range is 16-aligned, inside
    the buffer, and disjoint from every other range the GPU may still read.
  */
  lemma {:induction false} RangesNeverOverlap(events: seq<Event>)
    requires AllAllowed(events)
    ensures forall i :: 0 <= i < |After(events).ranges| ==> Sound(After(events), i)
    ensures Inv(After(events))
  {
    if events != [] {
      RangesNeverOverlap(events[..|events| - 1]);
      var s, e := After(events[..|events| - 1]), events[|events| - 1];
      match e {
        case Upload(size, c) => UploadKeepsInv(s, size, c);
        case Submit(c) => SubmitKeepsInv(s, c);
        case Wait(n, reached) => WaitKeepsInv(s, n, reached);
        case SubmitElsewhere => ProgressKeepsInv(s, Apply(s, e));
        case GpuCompletes(_) => ProgressKeepsInv(s, Apply(s, e));
      }
    }
  }

  /**
    The caller's duty is exact: the ranges handed out after a wait for the newest submission are disjoint from
    everything live, whatever their size, if and only if every earlier range had been submitted.
  */
  lemma ResetIsSafeIffAllSubmitted(s: State, commandBuffer: nat)
    requires Inv(s)
    ensures AllSubmitted(s) <==>
              forall size: nat :: size <= SIZE ==>
                var s' := AfterUpload(AfterWait(s, s.seqNo, s.seqNo), size, commandBuffer);
                Sound(s', |s.ranges|)
  {
    var waited := AfterWait(s, s.seqNo, s.seqNo);
    if AllSubmitted(s) {
      WaitKeepsInv(s, s.seqNo, s.seqNo);
      forall size: nat | size <= SIZE ensures Sound(AfterUpload(waited, size, commandBuffer), |s.ranges|) {
        UploadKeepsInv(waited, size, commandBuffer);
      }
    } else {
      var i :| 0 <= i < |s.ranges| && s.ranges[i].size > 0 && s.ranges[i].submission.None?;
      assert Sound(s, i);
      var s' := AfterUpload(waited, SIZE, commandBuffer);
      assert s'.ranges[i] == s.ranges[i] && Live(s', s'.ranges[i]) && Live(s', s'.ranges[|s.ranges|]);
      assert !Disjoint(s'.ranges[|s.ranges|], s'.ranges[i]);
      assert !Sound(s', |s.ranges|);
    }
  }

  /** Waiting on the newest submission while a range is still being recorded hands the same bytes out twice. */
  lemma ResetWhileRecordingOverlaps()
    ensures var s := After([Upload(64, 0), SubmitElsewhere, Wait(1, 1), Upload(64, 1)]);
            && |s.ranges| == 2 && s.ranges[0].start == s.ranges[1].start == 0
            && Live(s, s.ranges[0]) && Live(s, s.ranges[1])
  {
    var e := [Upload(64, 0), SubmitElsewhere, Wait(1, 1), Upload(64, 1)];
    assert e[..3][..2] == [Upload(64, 0), SubmitElsewhere] && e[..3] == [Upload(64, 0), SubmitElsewhere, Wait(1, 1)];
    assert e[..3][..2][..1] == [Upload(64, 0)] && e[..3][..2][..1][..0] == [];
    assert After([]) == State(0, 0, 0, []);
    assert After([Upload(64, 0)]) == State(64, 0, 0, [Range(0, 64, 0, None)]);
  }
}
