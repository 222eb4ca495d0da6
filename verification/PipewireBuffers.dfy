/**
  The hand-over of capture buffers between the PipeWire thread and the compositor thread (src/pipewire.cpp and
  paint_pipewire in src/steamcompmgr.cpp). Taking a buffer from the stream and marking it as being copied is one
  step here; everything else that another thread can come between is a step of its own.
*/
module PipewireBuffers {
  import opened Options

  type Id(==) = nat

  /** `attached` is buffer->buffer != nullptr. */
  datatype Buffer = Buffer(attached: bool, copying: bool)

  datatype State = State(
    live: map<Id, Buffer>,
    /** The buffers PipeWire itself has at its disposal. */
    stream: set<Id>,
    out: Option<Id>,
    /** s_pPipewireBuffer of the compositor. */
    held: Option<Id>,
    inSlot: Option<Id>,
    /** The compositor is between request_buffer and its own exchange of the out slot. */
    requested: bool,
    /** The PipeWire thread is between the two steps of stream_handle_remove_buffer. */
    removing: Option<Id>,
    /** Pushed, and overwritten in the slot before they were taken. */
    lost: set<Id>,
    destroyed: set<Id>)

  const INIT := State(map[], {}, None, None, None, false, None, {}, {})

  datatype Event =
    | AddBuffer(b: Id)
    | RemoveBegin(b: Id)
    | RemoveEnd
    | Request(b: Id)
    | Take
    | DestroyStale
    | Push
    | Dispatch

  predicate ByPipewireThread(e: Event) {
    e.AddBuffer? || e.RemoveBegin? || e.RemoveEnd? || e.Dispatch?
  }

  /** What the program counters of the two threads and the stream allow. */
  predicate Enabled(s: State, e: Event) {
    match e
    case AddBuffer(b) => s.removing == None && b !in s.live && b !in s.destroyed
    case RemoveBegin(b) => s.removing == None && b in s.live && s.live[b].attached
    case RemoveEnd => s.removing.Some?
    case Request(b) => !s.requested && s.held == None && b in s.stream
    case Take => s.held == None
    case DestroyStale => !s.requested && s.held.Some? && (s.held.value in s.live ==> !s.live[s.held.value].attached)
    case Push => !s.requested && s.held.Some?
    case Dispatch => s.removing == None && s.inSlot.Some?
  }

  /** The buffer a step reads or writes, if any. */
  function Touched(s: State, e: Event): Option<Id> {
    match e
    case AddBuffer(b) => None
    case RemoveBegin(b) => Some(b)
    case RemoveEnd => s.removing
    case Request(b) => Some(b)
    case Take => None
    case DestroyStale => s.held
    case Push => None
    case Dispatch => s.inSlot
  }

  predicate Safe(s: State, e: Event) {
    Touched(s, e).Some? ==> Touched(s, e).value in s.live
  }

  /** destroy_buffer: both slots are cleared of the buffer, and it is deleted. */
  function Destroy(s: State, b: Id): State {
    s.(live := s.live - {b},
       out := if s.out == Some(b) then None else s.out,
       inSlot := if s.inSlot == Some(b) then None else s.inSlot,
       destroyed := s.destroyed + {b})
  }

  function Apply(s: State, e: Event): State
    requires Enabled(s, e) && Safe(s, e)
  {
    match e
    case AddBuffer(b) => s.(live := s.live[b := Buffer(true, false)], stream := s.stream + {b})
    case RemoveBegin(b) =>
      s.(live := s.live[b := s.live[b].(attached := false)], stream := s.stream - {b}, removing := Some(b))
    case RemoveEnd =>
      var b := s.removing.value;
      var t := s.(removing := None);
      if s.live[b].copying then t else Destroy(t, b)
    case Request(b) =>
      s.(live := s.live[b := s.live[b].(copying := true)], stream := s.stream - {b}, out := Some(b), requested := true)
    case Take => s.(held := s.out, out := None, requested := false)
    case DestroyStale => Destroy(s.(held := None), s.held.value)
    case Push =>
      s.(inSlot := s.held, held := None, lost := if s.inSlot.Some? then s.lost + {s.inSlot.value} else s.lost)
    case Dispatch =>
      var b := s.inSlot.value;
      var t := s.(inSlot := None, live := s.live[b := s.live[b].(copying := false)]);
      if s.live[b].attached then t.(stream := t.stream + {b}) else Destroy(t, b)
  }

  /** Steps that are possible and touch no deleted buffer. */
  ghost predicate SafeRun(s: State, events: seq<Event>)
    decreases |events|
  {
    events == [] ||
    (Enabled(s, events[0]) && Safe(s, events[0]) && SafeRun(Apply(s, events[0]), events[1..]))
  }

  function Run(s: State, events: seq<Event>): State
    requires SafeRun(s, events)
    decreases |events|
  {
    if events == [] then s else Run(Apply(s, events[0]), events[1..])
  }

  // ----- Where buffers are -----

  /** The buffer was in the stream when its removal began. */
  predicate Leaving(s: State, b: Id) {
    s.removing == Some(b) && b in s.live && !s.live[b].copying
  }

  /** How many of the places hold the buffer. */
  function Places(s: State, b: Id): nat {
    (if b in s.stream then 1 else 0) + (if Leaving(s, b) then 1 else 0)
    + (if s.out == Some(b) then 1 else 0) + (if s.held == Some(b) then 1 else 0)
    + (if s.inSlot == Some(b) then 1 else 0) + (if b in s.lost then 1 else 0)
  }

  ghost predicate InvOf(s: State, b: Id) {
    && (b in s.live ==> Places(s, b) == 1 && (s.live[b].copying <==> !(b in s.stream || Leaving(s, b))))
    && (b !in s.live ==> b !in s.stream && s.out != Some(b) && s.held != Some(b) && s.inSlot != Some(b) && b !in s.lost)
    && (b in s.stream ==> b in s.live && s.live[b].attached)
    && (b in s.destroyed ==> b !in s.live)
    && (s.removing == Some(b) && b in s.live ==> !s.live[b].attached)
    && (s.removing == Some(b) && b !in s.live ==> b in s.destroyed)
  }

  ghost predicate Inv(s: State) {
    && (forall b: Id :: InvOf(s, b))
    && (s.out.Some? ==> s.requested) && (s.requested ==> s.held == None)
  }

  lemma StepKeepsInvOf(s: State, e: Event, b: Id)
    requires Inv(s) && Enabled(s, e) && Safe(s, e)
    ensures InvOf(Apply(s, e), b)
  {
    assert InvOf(s, b);
    if Touched(s, e).Some? {
      assert InvOf(s, Touched(s, e).value);
    }
  }

  lemma StepKeepsInv(s: State, e: Event)
    requires Inv(s) && Enabled(s, e) && Safe(s, e)
    ensures Inv(Apply(s, e))
  {
    forall b: Id ensures InvOf(Apply(s, e), b) {
      StepKeepsInvOf(s, e, b);
    }
    hide InvOf;
  }

  lemma {:induction false} RunKeepsInv(s: State, events: seq<Event>)
    requires Inv(s) && SafeRun(s, events)
    ensures Inv(Run(s, events))
    decreases |events|
  {
    hide Inv, Apply, Enabled, Safe;
    if events != [] {
      StepKeepsInv(s, events[0]);
      RunKeepsInv(Apply(s, events[0]), events[1..]);
    }
  }

  lemma ReachableKeepsInv(events: seq<Event>)
    requires SafeRun(INIT, events)
    ensures Inv(Run(INIT, events))
  {
    RunKeepsInv(INIT, events);
  }

  /**
    In every reachable state each live buffer is in exactly one place, and it is marked as being copied exactly
    when it is not in the stream and not just leaving it; deleted buffers are in no place.
  */
  lemma EveryBufferHasOnePlace(events: seq<Event>, b: Id)
    requires SafeRun(INIT, events)
    ensures var s := Run(INIT, events);
            && (b in s.live ==> Places(s, b) == 1 && (s.live[b].copying <==> b !in s.stream && !Leaving(s, b)))
            && (b !in s.live ==> Places(s, b) == 0)
  {
    ReachableKeepsInv(events);
    var s := Run(INIT, events);
    assert InvOf(s, b);
  }

  /** request_buffer always finds the out slot empty, so its assert holds. */
  lemma OutSlotAssertHolds(events: seq<Event>, b: Id)
    requires SafeRun(INIT, events) && Enabled(Run(INIT, events), Request(b))
    ensures Run(INIT, events).out == None
  {
    ReachableKeepsInv(events);
  }

  // ----- Deletion -----

  predicate Deletes(s: State, e: Event, b: Id)
    requires Enabled(s, e) && Safe(s, e)
  {
    b in s.live && b !in Apply(s, e).live
  }

  /**
    A buffer is deleted only after PipeWire removed it, at most once, with no slot still pointing at it, and by the
    PipeWire thread only when the compositor cannot have it.
  */
  lemma DeletionIsOrderly(events: seq<Event>, e: Event, b: Id)
    requires SafeRun(INIT, events) && Enabled(Run(INIT, events), e) && Safe(Run(INIT, events), e)
    requires Deletes(Run(INIT, events), e, b)
    ensures var s := Run(INIT, events);
            && !s.live[b].attached && b !in s.destroyed
            && s.out != Some(b) && (s.inSlot == Some(b) <==> e == Dispatch)
            && (ByPipewireThread(e) ==> s.held != Some(b))
            && (e == DestroyStale ==> s.held == Some(b))
  {
    ReachableKeepsInv(events);
    var s := Run(INIT, events);
    assert InvOf(s, b);
  }

  lemma DestroyedStaysDestroyed(s: State, events: seq<Event>, b: Id)
    requires Inv(s) && SafeRun(s, events) && b in s.destroyed
    ensures b in Run(s, events).destroyed && b !in Run(s, events).live
    decreases |events|
  {
    if events == [] {
      assert InvOf(s, b);
    } else {
      StepKeepsInv(s, events[0]);
      assert b in Apply(s, events[0]).destroyed;
      hide Inv, Apply, Enabled, Safe;
      DestroyedStaysDestroyed(Apply(s, events[0]), events[1..], b);
    }
  }

  /** Some way to go on from here deletes the buffer. */
  ghost predicate CanBeDeleted(s: State, b: Id) {
    exists events: seq<Event> :: SafeRun(s, events) && b !in Run(s, events).live
  }

  /** A removed buffer is on its way to the thread that deletes it, unless it was lost. */
  lemma RemovedIsDeletedFrom(s: State, b: Id) returns (events: seq<Event>)
    requires Inv(s) && Safe(s, RemoveEnd) && b in s.live && !s.live[b].attached && b !in s.lost
    ensures SafeRun(s, events) && b !in Run(s, events).live
    decreases s.removing.Some?
  {
    assert InvOf(s, b);
    if s.removing.Some? {
      var ended := Apply(s, RemoveEnd);
      events := [RemoveEnd];
      if b !in ended.live {
        RunNothing(ended, events[1..]);
      } else {
        StepKeepsInv(s, RemoveEnd);
        var rest := RemovedIsDeletedFrom(ended, b);
        events := [RemoveEnd] + rest;
        assert events[1..] == rest;
      }
    } else if s.held == Some(b) {
      events := [DestroyStale];
      RunNothing(Apply(s, DestroyStale), events[1..]);
    } else if s.inSlot == Some(b) {
      events := [Dispatch];
      RunNothing(Apply(s, Dispatch), events[1..]);
    } else {
      events := [Take, DestroyStale];
      var taken := Apply(s, Take);
      RunNothing(Apply(taken, DestroyStale), events[2..]);
      assert events[1..][1..] == events[2..];
      Follow(taken, events[1..]);
    }
    Follow(s, events);
  }

  /**
    Every buffer PipeWire has removed can still be deleted by whoever has it, with the one exception of those that
    were lost: these leak.
  */
  lemma RemovedCanBeDeletedIff(s: State, b: Id)
    requires Inv(s) && Safe(s, RemoveEnd) && b in s.live && !s.live[b].attached
    ensures CanBeDeleted(s, b) <==> b !in s.lost
  {
    if b !in s.lost {
      var events := RemovedIsDeletedFrom(s, b);
    } else {
      forall events: seq<Event> | SafeRun(s, events)
        ensures b in Run(s, events).live
      {
        LostIsLeaked(s, events, b);
      }
    }
  }

  // ----- The two-step removal -----

  /** The only step that can reach a deleted buffer is the second half of a removal. */
  lemma OnlyTheSecondHalfIsUnsafe(events: seq<Event>, e: Event)
    requires SafeRun(INIT, events) && Enabled(Run(INIT, events), e)
    ensures var s := Run(INIT, events);
            Safe(s, e) <==> !(e == RemoveEnd && s.removing.value in s.destroyed)
  {
    ReachableKeepsInv(events);
    var s := Run(INIT, events);
    if Touched(s, e).Some? {
      assert InvOf(s, Touched(s, e).value);
    }
  }

  /** The PipeWire thread has not gone on with the removal it is in. */
  ghost predicate NoRemoveEnd(events: seq<Event>) {
    forall i :: 0 <= i < |events| ==> events[i] != RemoveEnd
  }

  /** Whatever the compositor does between the two halves of the removal, the second half finds the buffer alive. */
  ghost predicate RemovalIsSafe(s: State, b: Id)
    requires Enabled(s, RemoveBegin(b)) && Safe(s, RemoveBegin(b))
  {
    var begun := Apply(s, RemoveBegin(b));
    forall events: seq<Event> ::
      SafeRun(begun, events) && NoRemoveEnd(events) && Enabled(Run(begun, events), RemoveEnd) ==>
        Safe(Run(begun, events), RemoveEnd)
  }

  /** The compositor has not got the buffer being removed, and will not. */
  ghost predicate OutOfReach(s: State, b: Id) {
    s.removing == Some(b) && b in s.live && b !in s.stream && s.held != Some(b) && s.out != Some(b)
  }

  lemma StepKeepsOutOfReach(s: State, e: Event, b: Id)
    requires Inv(s) && Enabled(s, e) && Safe(s, e) && e != RemoveEnd && OutOfReach(s, b)
    ensures OutOfReach(Apply(s, e), b)
  {
    assert InvOf(s, b);
  }

  lemma {:induction false} RunKeepsOutOfReach(s: State, events: seq<Event>, b: Id)
    requires Inv(s) && SafeRun(s, events) && NoRemoveEnd(events) && OutOfReach(s, b)
    ensures OutOfReach(Run(s, events), b)
    decreases |events|
  {
    hide Inv, Apply, Enabled, Safe, OutOfReach;
    if events != [] {
      StepKeepsInv(s, events[0]);
      StepKeepsOutOfReach(s, events[0], b);
      RunKeepsOutOfReach(Apply(s, events[0]), events[1..], b);
    }
  }

  /** From the out slot or its own hands the compositor can delete the buffer before the second half. */
  lemma CompositorCanDelete(s: State, b: Id) returns (events: seq<Event>)
    requires Inv(s) && s.removing == Some(b) && b in s.live && (s.held == Some(b) || s.out == Some(b))
    ensures SafeRun(s, events) && NoRemoveEnd(events)
    ensures Run(s, events).removing == Some(b) && b !in Run(s, events).live
  {
    assert InvOf(s, b);
    if s.held == Some(b) {
      events := [DestroyStale];
      RunNothing(Apply(s, DestroyStale), events[1..]);
    } else {
      events := [Take, DestroyStale];
      var taken := Apply(s, Take);
      RunNothing(Apply(taken, DestroyStale), events[2..]);
      assert events[1..][1..] == events[2..];
      Follow(taken, events[1..]);
    }
    Follow(s, events);
  }

  /**
    A removal is safe exactly when the compositor does not have the buffer and is not about to take it out of the
    slot as the removal begins.
  */
  lemma RemovalIsSafeIff(s: State, b: Id)
    requires Inv(s) && Enabled(s, RemoveBegin(b)) && Safe(s, RemoveBegin(b))
    ensures RemovalIsSafe(s, b) <==> s.held != Some(b) && s.out != Some(b)
  {
    var begun := Apply(s, RemoveBegin(b));
    StepKeepsInv(s, RemoveBegin(b));
    assert InvOf(s, b);
    if s.held == Some(b) || s.out == Some(b) {
      var events := CompositorCanDelete(begun, b);
      assert Enabled(Run(begun, events), RemoveEnd) && !Safe(Run(begun, events), RemoveEnd);
    } else {
      hide Inv;
      forall events: seq<Event> | SafeRun(begun, events) && NoRemoveEnd(events)
        ensures Enabled(Run(begun, events), RemoveEnd) ==> Safe(Run(begun, events), RemoveEnd)
      {
        RunKeepsOutOfReach(begun, events, b);
      }
    }
  }

  /** A run in which it is not: painting starts between the halves of the removal of a buffer the compositor holds. */
  lemma RemovalCanReachADeletedBuffer() returns (events: seq<Event>)
    ensures SafeRun(INIT, events) && Enabled(Run(INIT, events), RemoveEnd) && !Safe(Run(INIT, events), RemoveEnd)
  {
    events := [AddBuffer(1), Request(1), Take, RemoveBegin(1), DestroyStale];
    var s1 := Apply(INIT, AddBuffer(1));
    var s2 := Apply(s1, Request(1));
    var s3 := Apply(s2, Take);
    var s4 := Apply(s3, RemoveBegin(1));
    var s5 := Apply(s4, DestroyStale);
    RunNothing(s5, events[5..]);
    Follow(s4, events[4..]);
    Follow(s3, events[3..]);
    Follow(s2, events[2..]);
    Follow(s1, events[1..]);
    Follow(INIT, events);
  }

  lemma RunNothing(s: State, events: seq<Event>)
    requires events == []
    ensures SafeRun(s, events) && Run(s, events) == s
  {}

  lemma Follow(s: State, events: seq<Event>)
    requires events != [] && Enabled(s, events[0]) && Safe(s, events[0]) && SafeRun(Apply(s, events[0]), events[1..])
    ensures SafeRun(s, events) && Run(s, events) == Run(Apply(s, events[0]), events[1..])
  {}

  // ----- A second push -----

  /** A push loses a buffer exactly when the previous one has not been taken; nobody ever gets hold of it again. */
  lemma PushLosesIff(events: seq<Event>, b: Id)
    requires SafeRun(INIT, events) && Enabled(Run(INIT, events), Push)
    ensures var s := Run(INIT, events);
            b in Apply(s, Push).lost && b !in s.lost <==> s.inSlot == Some(b)
  {
    ReachableKeepsInv(events);
    var s := Run(INIT, events);
    assert InvOf(s, b);
  }

  /** It happens when the compositor paints twice before the PipeWire thread gets to the slot. */
  lemma SecondPushLoses() returns (events: seq<Event>)
    ensures SafeRun(INIT, events) && 1 in Run(INIT, events).lost
  {
    events := [AddBuffer(1), AddBuffer(2), Request(1), Take, Push, Request(2), Take, Push];
    var s1 := Apply(INIT, AddBuffer(1));
    var s2 := Apply(s1, AddBuffer(2));
    var s3 := Apply(s2, Request(1));
    var s4 := Apply(s3, Take);
    var s5 := Apply(s4, Push);
    var s6 := Apply(s5, Request(2));
    var s7 := Apply(s6, Take);
    RunNothing(Apply(s7, Push), events[8..]);
    Follow(s7, events[7..]);
    Follow(s6, events[6..]);
    Follow(s5, events[5..]);
    Follow(s4, events[4..]);
    Follow(s3, events[3..]);
    Follow(s2, events[2..]);
    Follow(s1, events[1..]);
    Follow(INIT, events);
  }

  /** A lost buffer is never deleted: it leaks, even when PipeWire removes it. */
  lemma {:induction false} LostIsLeaked(s: State, events: seq<Event>, b: Id)
    requires Inv(s) && SafeRun(s, events) && b in s.lost
    ensures b in Run(s, events).lost && b in Run(s, events).live && b !in Run(s, events).destroyed
    decreases |events|
  {
    assert InvOf(s, b);
    if events != [] {
      StepKeepsInv(s, events[0]);
      LostStays(s, events[0], b);
      hide Inv, Apply, Enabled, Safe;
      LostIsLeaked(Apply(s, events[0]), events[1..], b);
    }
  }

  lemma LostStays(s: State, e: Event, b: Id)
    requires Inv(s) && Enabled(s, e) && Safe(s, e) && b in s.lost
    ensures b in Apply(s, e).lost
  {}

  // ----- The code on its variables -----

  /** The two atomic slots, the fields of the buffers, and what the two threads know. */
  class Exchange {
    var buffers: map<Id, Buffer>
    var outBuffer: Option<Id>
    var inBuffer: Option<Id>
    var pipewireBuffer: Option<Id>
    var stream: set<Id>
    ghost var requested: bool
    ghost var removing: Option<Id>
    ghost var lost: set<Id>
    ghost var destroyed: set<Id>

    ghost function Value(): State
      reads this
    {
      State(buffers, stream, outBuffer, pipewireBuffer, inBuffer, requested, removing, lost, destroyed)
    }

    constructor ()
      ensures Value() == INIT
    {
      buffers, outBuffer, inBuffer, pipewireBuffer, stream := map[], None, None, None, {};
      requested, removing, lost, destroyed := false, None, {}, {};
    }

    /** destroy_buffer, whose assert is the second precondition. */
    method DestroyBuffer(b: Id)
      requires b in buffers
      requires !buffers[b].attached
      modifies this
      ensures Value() == Destroy(old(Value()), b)
    {
      if outBuffer == Some(b) {
        outBuffer := None;
      }
      if inBuffer == Some(b) {
        inBuffer := None;
      }
      buffers := buffers - {b};
      destroyed := destroyed + {b};
    }

    /** request_buffer, given the buffer the stream hands out. */
    method RequestBuffer(b: Id)
      requires Inv(Value()) && Enabled(Value(), Request(b))
      modifies this
      ensures b in old(buffers) && Value() == Apply(old(Value()), Request(b))
    {
      assert InvOf(Value(), b);
      stream := stream - {b};
      buffers := buffers[b := buffers[b].(copying := true)];
      var previous := outBuffer;
      outBuffer, requested := Some(b), true;
      assert previous == None;
    }

    /** The exchange at the end of dequeue_pipewire_buffer. */
    method TakeBuffer()
      requires Enabled(Value(), Take)
      modifies this
      ensures Value() == Apply(old(Value()), Take)
    {
      pipewireBuffer, outBuffer := outBuffer, None;
      requested := false;
    }

    /** The start of paint_pipewire. */
    method DropStale()
      requires Inv(Value()) && !requested
      modifies this
      ensures Safe(old(Value()), DestroyStale)
      ensures Value() == if Enabled(old(Value()), DestroyStale) then Apply(old(Value()), DestroyStale) else old(Value())
    {
      if pipewireBuffer.Some? {
        var b := pipewireBuffer.value;
        assert InvOf(Value(), b);
        if !buffers[b].attached {
          DestroyBuffer(b);
          pipewireBuffer := None;
        }
      }
    }

    /** push_pipewire_buffer. */
    method PushBuffer()
      requires Enabled(Value(), Push)
      modifies this
      ensures Value() == Apply(old(Value()), Push)
    {
      var previous := inBuffer;
      inBuffer := pipewireBuffer;
      if previous.Some? {
        lost := lost + {previous.value};
      }
      pipewireBuffer := None;
    }

    /** The end of dispatch_nudge. */
    method DispatchNudge()
      requires Inv(Value()) && removing == None
      modifies this
      ensures Safe(old(Value()), Dispatch)
      ensures Value() == if Enabled(old(Value()), Dispatch) then Apply(old(Value()), Dispatch) else old(Value())
    {
      var buffer := inBuffer;
      inBuffer := None;
      if buffer.Some? {
        var b := buffer.value;
        assert InvOf(old(Value()), b);
        buffers := buffers[b := buffers[b].(copying := false)];
        if buffers[b].attached {
          stream := stream + {b};
        } else {
          DestroyBuffer(b);
        }
      }
    }

    /** stream_handle_remove_buffer up to its test of `copying`. */
    method RemoveFirstHalf(b: Id)
      requires Enabled(Value(), RemoveBegin(b))
      modifies this
      ensures Value() == Apply(old(Value()), RemoveBegin(b))
    {
      stream := stream - {b};
      buffers := buffers[b := buffers[b].(attached := false)];
      removing := Some(b);
    }

    /** The rest of it, while the buffer is still there. */
    method RemoveSecondHalf(b: Id)
      requires Inv(Value()) && removing == Some(b) && b in buffers
      modifies this
      ensures Value() == Apply(old(Value()), RemoveEnd)
    {
      assert InvOf(Value(), b);
      removing := None;
      if !buffers[b].copying {
        DestroyBuffer(b);
      }
    }
  }
}
