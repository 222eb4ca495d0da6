/**
  The release point of a framebuffer when several threads drop references (src/backend.cpp). `DecRef` moves the
  point out of the framebuffer, drops its reference, and puts the point back when that was not the last one. Nothing
  guards these three steps, so other threads come between them. The counts of src/rc.h are taken as exact here, and a
  public count above 0 as one private reference; the client buffer and its lock are the business of `FbLocks`.
*/
module ReleasePoints {
  import opened Options
  import FbLocks
  import ThreadIds

  type ThreadId = nat
  type Point = nat

  /** Where a thread is in DecRef: before it, with the point moved out, and after its reference is gone. */
  datatype Pc = Idle | Taken(mine: Option<Point>) | Dropped(mine: Option<Point>, last: bool)

  /** `privates` are the private references apart from the one behind the public count. */
  datatype System = System(
    refCount: nat,
    privates: nat,
    alive: bool,
    point: Option<Point>,
    pcs: map<ThreadId, Pc>,
    known: set<Point>,
    released: set<Point>)
  {
    function PcOf(t: ThreadId): Pc {
      if t in pcs then pcs[t] else Idle
    }

    function Go(t: ThreadId, pc: Pc): System {
      this.(pcs := pcs[t := pc])
    }
  }

  function AsSet(p: Option<Point>): set<Point> {
    if p.Some? then {p.value} else {}
  }

  function Releasing(s: System, p: Option<Point>): System {
    s.(released := s.released + AsSet(p))
  }

  /** The destructor lets go of the point that is still there. */
  function Settled(s: System): System {
    if s.refCount > 0 || s.privates > 0 then s else Releasing(s, s.point).(alive := false, point := None)
  }

  datatype Event =
    | Take(t: ThreadId)
    | Decrement(t: ThreadId)
    | Finish(t: ThreadId)
    | IncRef
    | IncRefPrivate
    | DecRefPrivate
    | SetReleasePoint(p: Point)

  function Dropping(s: System): set<ThreadId> {
    set t | t in s.pcs && s.pcs[t].Taken?
  }

  /** Somebody has a reference that is not being dropped. */
  predicate Free(s: System) {
    s.refCount > |Dropping(s)| || s.privates > 0
  }

  /** References are copied and points are set by those who have a reference; a point belongs to one framebuffer. */
  predicate Enabled(s: System, e: Event) {
    match e
    case Take(t) => s.PcOf(t).Idle? && s.refCount > |Dropping(s)|
    case Decrement(t) => s.PcOf(t).Taken? && s.refCount > 0
    case Finish(t) => s.PcOf(t).Dropped?
    case IncRef => Free(s)
    case IncRefPrivate => Free(s)
    case DecRefPrivate => s.privates > 0
    case SetReleasePoint(p) => Free(s) && p !in s.known
  }

  /** The last step of DecRef puts a point back. */
  predicate PutsBack(s: System, t: ThreadId) {
    s.PcOf(t).Dropped? && !s.PcOf(t).last && s.PcOf(t).mine.Some?
  }

  function Apply(s: System, e: Event): System
    requires Enabled(s, e)
  {
    match e
    case Take(t) => s.(point := None).Go(t, Taken(s.point))
    case Decrement(t) => Settled(s.(refCount := s.refCount - 1).Go(t, Dropped(s.PcOf(t).mine, s.refCount == 1)))
    case Finish(t) =>
      if PutsBack(s, t) then Releasing(s, s.point).(point := s.PcOf(t).mine).Go(t, Idle)
      else Releasing(s, s.PcOf(t).mine).Go(t, Idle)
    case IncRef => s.(refCount := s.refCount + 1)
    case IncRefPrivate => s.(privates := s.privates + 1)
    case DecRefPrivate => Settled(s.(privates := s.privates - 1))
    case SetReleasePoint(p) => Releasing(s, s.point).(point := Some(p), known := s.known + {p})
  }

  /** Putting a point back touches the framebuffer, though the thread has no reference on it any more. */
  predicate Safe(s: System, e: Event) {
    e.Finish? && PutsBack(s, e.t) ==> s.alive
  }

  const INIT := System(1, 0, true, None, map[], {}, {})

  // ----- Runs -----

  ghost predicate SafeRun(s: System, events: seq<Event>)
    decreases |events|
  {
    events == [] ||
    (Enabled(s, events[0]) && Safe(s, events[0]) && SafeRun(Apply(s, events[0]), events[1..]))
  }

  ghost function Run(s: System, events: seq<Event>): System
    requires SafeRun(s, events)
    decreases |events|
  {
    if events == [] then s else Run(Apply(s, events[0]), events[1..])
  }

  lemma Follow(s: System, e: Event, rest: seq<Event>)
    requires Enabled(s, e) && Safe(s, e) && SafeRun(Apply(s, e), rest)
    ensures SafeRun(s, [e] + rest) && Run(s, [e] + rest) == Run(Apply(s, e), rest)
  {
    hide Apply, Enabled, Safe;
    assert ([e] + rest)[1..] == rest;
  }

  // ----- Counts and places -----

  ghost predicate Counted(s: System) {
    |Dropping(s)| <= s.refCount && (s.alive <==> s.refCount > 0 || s.privates > 0)
  }

  ghost predicate HeldBy(s: System, t: ThreadId, p: Point) {
    !s.PcOf(t).Idle? && s.PcOf(t).mine == Some(p)
  }

  /** A point is stored, moved out by one thread, or released, and only one of these. */
  ghost predicate InOnePlace(s: System, p: Point) {
    && (p in s.known <==> s.point == Some(p) || p in s.released || exists t :: HeldBy(s, t, p))
    && (s.point == Some(p) ==> p !in s.released && forall t :: !HeldBy(s, t, p))
    && (p in s.released ==> forall t :: !HeldBy(s, t, p))
    && (forall t, u :: HeldBy(s, t, p) && HeldBy(s, u, p) ==> t == u)
  }

  ghost predicate Inv(s: System) {
    Counted(s) && (!s.alive ==> s.point == None) && forall p: Point :: InOnePlace(s, p)
  }

  lemma DroppingStep(s: System, t: ThreadId, pc: Pc)
    ensures Dropping(s.Go(t, pc)) == if pc.Taken? then Dropping(s) + {t} else Dropping(s) - {t}
  {}

  lemma DroppingAfter(s: System, e: Event)
    requires Enabled(s, e)
    ensures e.Take? ==> Dropping(Apply(s, e)) == Dropping(s) + {e.t} && e.t !in Dropping(s)
    ensures e.Decrement? ==> Dropping(Apply(s, e)) == Dropping(s) - {e.t} && e.t in Dropping(s)
    ensures !e.Take? && !e.Decrement? ==> Dropping(Apply(s, e)) == Dropping(s)
  {
    hide Free;
    if e.Take? || e.Decrement? || e.Finish? {
      DroppingStep(s, e.t, Apply(s, e).PcOf(e.t));
    }
  }

  lemma CountedStep(s: System, e: Event)
    requires Counted(s) && Enabled(s, e) && Safe(s, e)
    ensures Counted(Apply(s, e))
  {
    DroppingAfter(s, e);
    hide Dropping;
  }

  /** A step of thread t that moves p between the framebuffer, that thread and the released points at most. */
  ghost predicate Moves(s: System, s': System, t: ThreadId, p: Point) {
    && (forall u :: u != t ==> (HeldBy(s', u, p) <==> HeldBy(s, u, p)))
    && (s.point == Some(p) || p in s.released || HeldBy(s, t, p) || (p in s'.known && p !in s.known) <==>
        s'.point == Some(p) || p in s'.released || HeldBy(s', t, p))
    && s.known <= s'.known
    && !(s'.point == Some(p) && p in s'.released)
    && !(s'.point == Some(p) && HeldBy(s', t, p))
    && !(p in s'.released && HeldBy(s', t, p))
  }

  lemma MovedIsInOnePlace(s: System, s': System, t: ThreadId, p: Point)
    requires InOnePlace(s, p) && Moves(s, s', t, p)
    ensures InOnePlace(s', p)
  {
    hide HeldBy;
    if u :| HeldBy(s, u, p) {
      assert HeldBy(s', u, p) || u == t;
    }
  }

  /** In InOnePlace for the thread at hand. */
  lemma PlaceOf(s: System, t: ThreadId, p: Point)
    requires InOnePlace(s, p)
    ensures HeldBy(s, t, p) ==> s.point != Some(p) && p !in s.released && p in s.known
    ensures s.point == Some(p) || p in s.released ==> p in s.known
    ensures !(s.point == Some(p) && p in s.released)
    ensures p !in s.known ==> !HeldBy(s, t, p)
  {
    hide HeldBy;
  }

  lemma TakeMoves(s: System, t: ThreadId, p: Point)
    requires InOnePlace(s, p) && Enabled(s, Take(t))
    ensures Moves(s, Apply(s, Take(t)), t, p)
  {
    hide InOnePlace, Dropping, Free;
    PlaceOf(s, t, p);
  }

  lemma DecrementMoves(s: System, t: ThreadId, p: Point)
    requires InOnePlace(s, p) && Enabled(s, Decrement(t))
    ensures Moves(s, Apply(s, Decrement(t)), t, p)
  {
    hide InOnePlace, Dropping, Free;
    PlaceOf(s, t, p);
  }

  lemma FinishMoves(s: System, t: ThreadId, p: Point)
    requires InOnePlace(s, p) && Enabled(s, Finish(t))
    ensures Moves(s, Apply(s, Finish(t)), t, p)
  {
    hide InOnePlace, Dropping, Free;
    PlaceOf(s, t, p);
  }

  lemma OthersMove(s: System, e: Event, p: Point)
    requires InOnePlace(s, p) && Enabled(s, e) && !(e.Take? || e.Decrement? || e.Finish?)
    ensures Moves(s, Apply(s, e), 0, p)
  {
    hide InOnePlace, Dropping, Free;
    PlaceOf(s, 0, p);
  }

  lemma PlaceStep(s: System, e: Event, p: Point)
    requires InOnePlace(s, p) && Enabled(s, e)
    ensures InOnePlace(Apply(s, e), p)
  {
    hide Moves, InOnePlace, Apply, Enabled;
    match e
    case Take(t) =>
      TakeMoves(s, t, p);
      MovedIsInOnePlace(s, Apply(s, e), t, p);
    case Decrement(t) =>
      DecrementMoves(s, t, p);
      MovedIsInOnePlace(s, Apply(s, e), t, p);
    case Finish(t) =>
      FinishMoves(s, t, p);
      MovedIsInOnePlace(s, Apply(s, e), t, p);
    case _ =>
      OthersMove(s, e, p);
      MovedIsInOnePlace(s, Apply(s, e), 0, p);
  }

  lemma StepKeepsInv(s: System, e: Event)
    requires Inv(s) && Enabled(s, e) && Safe(s, e)
    ensures Inv(Apply(s, e))
  {
    CountedStep(s, e);
    forall p: Point ensures InOnePlace(Apply(s, e), p) {
      PlaceStep(s, e, p);
    }
    hide InOnePlace, Counted;
  }

  lemma {:induction false} RunKeepsInv(s: System, events: seq<Event>)
    requires Inv(s) && SafeRun(s, events)
    ensures Inv(Run(s, events))
    decreases |events|
  {
    hide Inv, Apply, Enabled, Safe;
    if events != [] {
      StepKeepsInv(s, events[0]);
      RunKeepsInv(Apply(s, events[0]), events[1..]);
    }
  }

  /** However the steps interleave, a point that was ever set is stored, moved out by one thread, or released. */
  lemma PointsHaveOnePlace(events: seq<Event>, p: Point)
    requires SafeRun(INIT, events)
    ensures InOnePlace(Run(INIT, events), p)
  {
    assert Inv(INIT) by { assert Dropping(INIT) == {}; }
    RunKeepsInv(INIT, events);
  }

  // ----- Undisturbed -----

  /** The framebuffer as the operations one after the other see it, with no DecRef going on. */
  ghost predicate Abstracts(s: System, fb: FbLocks.Fb) {
    && fb.refCount == s.refCount && fb.refPrivate == s.privates + (if s.refCount > 0 then 1 else 0)
    && fb.deleted == !s.alive && fb.releasePoint == s.point && (set p | p in fb.released) == s.released
  }

  ghost function AfterCall(s: System, t: ThreadId): System
    requires Enabled(s, Take(t))
  {
    Apply(Apply(Apply(s, Take(t)), Decrement(t)), Finish(t))
  }

  lemma CallIs(s: System, t: ThreadId)
    requires Counted(s) && Enabled(s, Take(t))
    ensures Safe(Apply(Apply(s, Take(t)), Decrement(t)), Finish(t))
    ensures var r, more := AfterCall(s, t), s.refCount > 1;
            && r.refCount == s.refCount - 1 && r.privates == s.privates && (r.alive <==> more || s.privates > 0)
            && r.point == (if more then s.point else None)
            && r.released == (if more then s.released else s.released + AsSet(s.point))
  {
    hide Free, Dropping;
  }

  lemma CallOf(fb: FbLocks.Fb)
    requires FbLocks.MayDecRef(fb)
    ensures var r, more := FbLocks.AfterDecRef(fb), fb.refCount > 1;
            && r.refCount == fb.refCount - 1 && r.refPrivate == (if more then fb.refPrivate else fb.refPrivate - 1)
            && (r.deleted <==> !more && fb.refPrivate == 1)
            && r.releasePoint == (if more then fb.releasePoint else None)
            && r.released ==
                 if !more && fb.releasePoint.Some? then fb.released + [fb.releasePoint.value] else fb.released
  {}

  /** Three steps that nothing comes between are safe, and are the DecRef of `FbLocks`. */
  lemma UndisturbedIsAtomic(s: System, t: ThreadId, fb: FbLocks.Fb)
    requires Counted(s) && Enabled(s, Take(t)) && Abstracts(s, fb) && FbLocks.MayDecRef(fb)
    ensures Safe(Apply(Apply(s, Take(t)), Decrement(t)), Finish(t))
    ensures Abstracts(AfterCall(s, t), FbLocks.AfterDecRef(fb))
  {
    CallIs(s, t);
    CallOf(fb);
    hide AfterCall, FbLocks.AfterDecRef, Dropping, Free;
    if s.point.Some? {
      SetOfAppended(fb.released, s.point.value);
    }
  }

  lemma SetOfAppended(x: seq<Point>, y: Point)
    ensures (set p | p in x + [y]) == (set p | p in x) + {y}
  {}

  // ----- Dropping everything else -----

  ghost predicate LeavesAlone(events: seq<Event>, t: ThreadId) {
    forall i :: 0 <= i < |events| ==> events[i] != Finish(t)
  }

  lemma FollowTwo(s: System, e: Event, f: Event, rest: seq<Event>)
    requires Enabled(s, e) && Safe(s, e) && Enabled(Apply(s, e), f) && Safe(Apply(s, e), f)
    requires SafeRun(Apply(Apply(s, e), f), rest)
    ensures SafeRun(s, [e, f] + rest) && Run(s, [e, f] + rest) == Run(Apply(Apply(s, e), f), rest)
  {
    hide Apply, Enabled, Safe;
    Follow(Apply(s, e), f, rest);
    Follow(s, e, [f] + rest);
    assert [e] + ([f] + rest) == [e, f] + rest;
  }

  /** The others drop all public references while t waits to put its point back. */
  lemma {:induction false} DropPublic(s: System, t: ThreadId) returns (events: seq<Event>)
    requires Counted(s) && s.PcOf(t).Dropped?
    ensures SafeRun(s, events) && LeavesAlone(events, t)
    ensures var r := Run(s, events);
            Counted(r) && r.refCount == 0 && r.privates == s.privates && r.PcOf(t) == s.PcOf(t)
    decreases s.refCount
  {
    hide Counted, Free, SafeRun, Run;
    events := [];
    if s.refCount > 0 {
      if u :| u in Dropping(s) {
        CountedStep(s, Decrement(u));
        var rest := DropPublic(Apply(s, Decrement(u)), t);
        events := [Decrement(u)] + rest;
        Follow(s, Decrement(u), rest);
      } else {
        var u := ThreadIds.Bound(s.pcs.Keys);
        assert Dropping(s) == {};
        CountedStep(s, Take(u));
        var s' := Apply(s, Take(u));
        CountedStep(s', Decrement(u));
        var rest := DropPublic(Apply(s', Decrement(u)), t);
        events := [Take(u), Decrement(u)] + rest;
        FollowTwo(s, Take(u), Decrement(u), rest);
      }
    } else {
      NoEvents(s);
    }
  }

  lemma NoEvents(s: System)
    ensures SafeRun(s, []) && Run(s, []) == s
  {}

  lemma {:induction false} DropPrivate(s: System, t: ThreadId) returns (events: seq<Event>)
    requires Counted(s) && s.refCount == 0
    ensures SafeRun(s, events) && LeavesAlone(events, t)
    ensures !Run(s, events).alive && Run(s, events).PcOf(t) == s.PcOf(t)
    decreases s.privates
  {
    hide Free, SafeRun, Run;
    events := [];
    if s.privates > 0 {
      CountedStep(s, DecRefPrivate);
      var rest := DropPrivate(Apply(s, DecRefPrivate), t);
      events := [DecRefPrivate] + rest;
      Follow(s, DecRefPrivate, rest);
    } else {
      NoEvents(s);
    }
  }

  // ----- When putting back is safe -----

  /** Whatever the others do until then, thread t ends its DecRef without touching a deleted framebuffer. */
  ghost predicate StaysSafe(s: System, t: ThreadId) {
    forall events :: SafeRun(s, events) && LeavesAlone(events, t) && Enabled(Run(s, events), Finish(t)) ==>
      Safe(Run(s, events), Finish(t))
  }

  /** Thread t drops, or has dropped, the last reference of all. */
  ghost predicate DropsLast(s: System, t: ThreadId) {
    (s.PcOf(t).Taken? && s.refCount == 1 && s.privates == 0) || (s.PcOf(t).Dropped? && s.PcOf(t).last)
  }

  lemma DropsLastStep(s: System, t: ThreadId, e: Event)
    requires Counted(s) && DropsLast(s, t) && Enabled(s, e) && e != Finish(t)
    ensures DropsLast(Apply(s, e), t)
  {
    if s.PcOf(t).Taken? {
      assert t in Dropping(s);
      OnlyOne(Dropping(s), t);
      assert |Dropping(s)| == 1;
      assert e.Decrement? ==> e.t in Dropping(s);
    }
  }

  lemma OneDrops(s: System, t: ThreadId)
    requires Counted(s) && s.PcOf(t).Taken?
    ensures s.refCount > 0
  {
    assert t in Dropping(s);
  }

  lemma OnlyOne(s: set<ThreadId>, t: ThreadId)
    requires t in s && |s| <= 1
    ensures s == {t}
  {
    assert |s - {t}| == 0;
  }

  lemma {:induction false} DropsLastAlong(s: System, t: ThreadId, events: seq<Event>)
    requires Counted(s) && DropsLast(s, t) && SafeRun(s, events) && LeavesAlone(events, t)
    ensures DropsLast(Run(s, events), t)
    decreases |events|
  {
    hide Counted, DropsLast, Apply, Enabled, Safe;
    if events != [] {
      CountedStep(s, events[0]);
      DropsLastStep(s, t, events[0]);
      assert forall i :: 0 <= i < |events[1..]| ==> events[1..][i] == events[i + 1];
      DropsLastAlong(Apply(s, events[0]), t, events[1..]);
    }
  }

  /** An event ahead of a run that leaves t alone. */
  lemma Ahead(s: System, e: Event, rest: seq<Event>, t: ThreadId)
    requires Enabled(s, e) && Safe(s, e) && e != Finish(t)
    requires SafeRun(Apply(s, e), rest) && LeavesAlone(rest, t)
    ensures SafeRun(s, [e] + rest) && LeavesAlone([e] + rest, t) && Run(s, [e] + rest) == Run(Apply(s, e), rest)
  {
    hide Apply, Enabled, Safe;
    Follow(s, e, rest);
  }

  lemma {:induction false} Behind(s: System, events: seq<Event>, more: seq<Event>)
    requires SafeRun(s, events) && SafeRun(Run(s, events), more)
    ensures SafeRun(s, events + more) && Run(s, events + more) == Run(Run(s, events), more)
    decreases |events|
  {
    hide Apply, Enabled, Safe;
    if events == [] {
      assert events + more == more;
    } else {
      Behind(Apply(s, events[0]), events[1..], more);
      assert (events + more)[1..] == events[1..] + more;
    }
  }

  /** Where somebody else has a reference it can drop it, and all others, once t has dropped its own. */
  lemma OthersCanDelete(s: System, t: ThreadId) returns (events: seq<Event>)
    requires Counted(s) && s.PcOf(t).Taken? && s.PcOf(t).mine.Some? && s.refCount > 1
    ensures SafeRun(s, events) && LeavesAlone(events, t)
    ensures PutsBack(Run(s, events), t) && !Run(s, events).alive
  {
    hide Free, SafeRun, Run, LeavesAlone;
    CountedStep(s, Decrement(t));
    var s1 := Apply(s, Decrement(t));
    var first := DropPublic(s1, t);
    var second := DropPrivate(Run(s1, first), t);
    Behind(s1, first, second);
    BothLeaveAlone(first, second, t);
    Ahead(s, Decrement(t), first + second, t);
    events := [Decrement(t)] + (first + second);
  }

  lemma BothLeaveAlone(first: seq<Event>, second: seq<Event>, t: ThreadId)
    requires LeavesAlone(first, t) && LeavesAlone(second, t)
    ensures LeavesAlone(first + second, t)
  {}

  /**
    A DecRef that has moved a point out is sure to end without touching a deleted framebuffer exactly when its
    reference is the last one of all.
  */
  lemma DecRefIsSafeIff(s: System, t: ThreadId)
    requires Counted(s) && s.PcOf(t).Taken? && s.PcOf(t).mine.Some?
    ensures StaysSafe(s, t) <==> s.refCount == 1 && s.privates == 0
  {
    hide SafeRun, Run, LeavesAlone, Counted;
    assert s.refCount > 0 by { OneDrops(s, t); }
    if s.refCount == 1 && s.privates == 0 {
      forall events | SafeRun(s, events) && LeavesAlone(events, t) && Enabled(Run(s, events), Finish(t))
        ensures Safe(Run(s, events), Finish(t))
      {
        DropsLastAlong(s, t, events);
      }
    } else if s.refCount > 1 {
      var events := OthersCanDelete(s, t);
      assert !Safe(Run(s, events), Finish(t));
    } else {
      CountedStep(s, IncRef);
      var rest := OthersCanDelete(Apply(s, IncRef), t);
      Ahead(s, IncRef, rest, t);
      assert !Safe(Run(s, [IncRef] + rest), Finish(t));
    }
  }

  /** Such a state is reachable: two threads drop the last two references, and the first one has the point. */
  lemma PutBackCanComeTooLate() returns (events: seq<Event>)
    ensures SafeRun(INIT, events) && Enabled(Run(INIT, events), Finish(0)) && !Safe(Run(INIT, events), Finish(0))
  {
    var s1 := Apply(INIT, IncRef);
    var s2 := Apply(s1, SetReleasePoint(7));
    var s3 := Apply(s2, Take(0));
    assert Dropping(s2) == {} && Dropping(s3) == {0};
    var s4 := Apply(s3, Decrement(0));
    assert Dropping(s4) == {};
    var s5 := Apply(s4, Take(1));
    var s6 := Apply(s5, Decrement(1));
    hide Free, SafeRun, Run;
    NoEvents(s6);
    FollowTwo(s4, Take(1), Decrement(1), []);
    FollowTwo(s2, Take(0), Decrement(0), [Take(1), Decrement(1)] + []);
    events := [IncRef, SetReleasePoint(7)] + ([Take(0), Decrement(0)] + ([Take(1), Decrement(1)] + []));
    FollowTwo(INIT, IncRef, SetReleasePoint(7), [Take(0), Decrement(0)] + ([Take(1), Decrement(1)] + []));
  }

  // ----- Points that are kept too long, or let go of too early -----

  /** Nobody can copy a reference or set a point any more. */
  lemma {:induction false} NobodyElse(s: System, events: seq<Event>)
    requires Counted(s) && !Free(s) && SafeRun(s, events)
    ensures Counted(Run(s, events)) && !Free(Run(s, events)) && Run(s, events).known == s.known
    decreases |events|
  {
    if events != [] {
      NobodyElseStep(s, events[0]);
      CountedStep(s, events[0]);
      hide Free, Counted, Apply, Enabled, Safe;
      NobodyElse(Apply(s, events[0]), events[1..]);
    }
  }

  lemma NobodyElseStep(s: System, e: Event)
    requires Counted(s) && !Free(s) && Enabled(s, e)
    ensures !Free(Apply(s, e)) && Apply(s, e).known == s.known
  {
    DroppingAfter(s, e);
    hide Dropping;
  }

  /** After the last public reference has gone the framebuffer still stores p. */
  ghost predicate KeptTooLong(s: System, p: Point) {
    s.alive && s.refCount == 0 && s.point == Some(p)
  }

  ghost predicate CanBeKept(s: System, p: Point) {
    exists events :: SafeRun(s, events) && KeptTooLong(Run(s, events), p)
  }

  /** Two more references let the one of t go without being the last, and the framebuffer live on. */
  lemma Backed(s: System, t: ThreadId) returns (events: seq<Event>)
    requires Counted(s) && Free(s) && s.PcOf(t).Taken?
    ensures SafeRun(s, events) && LeavesAlone(events, t)
    ensures var r := Run(s, events);
            && Counted(r) && Free(r) && r.privates > 0 && r.refCount > 1
            && r.pcs == s.pcs && r.point == s.point && r.known == s.known && r.released == s.released
  {
    CountedStep(s, IncRefPrivate);
    var s1 := Apply(s, IncRefPrivate);
    CountedStep(s1, IncRef);
    OneDrops(s, t);
    NoEvents(Apply(s1, IncRef));
    FollowTwo(s, IncRefPrivate, IncRef, []);
    events := [IncRefPrivate, IncRef] + [];
    hide SafeRun, Run, Counted, Free;
  }

  /**
    A point that a DecRef has moved out can outlive the last public reference unreleased exactly when somebody else
    has a reference that is not being dropped.
  */
  lemma KeptTooLongIff(s: System, t: ThreadId, p: Point)
    requires Counted(s) && s.PcOf(t) == Taken(Some(p))
    ensures CanBeKept(s, p) <==> Free(s)
  {
    if Free(s) {
      var events := KeepingRun(s, t, p);
      assert KeptTooLong(Run(s, events), p);
    } else {
      forall events | SafeRun(s, events) ensures !KeptTooLong(Run(s, events), p) {
        NobodyElse(s, events);
      }
    }
  }

  lemma KeepingRun(s: System, t: ThreadId, p: Point) returns (events: seq<Event>)
    requires Counted(s) && s.PcOf(t) == Taken(Some(p)) && Free(s)
    ensures SafeRun(s, events) && KeptTooLong(Run(s, events), p)
  {
    hide Free, SafeRun, Run, LeavesAlone;
    var first := Backed(s, t);
    var s1 := Run(s, first);
    CountedStep(s1, Decrement(t));
    var s2 := Apply(s1, Decrement(t));
    var second := DropPublic(s2, t);
    var s3 := Run(s2, second);
    NoEvents(Apply(s3, Finish(t)));
    Follow(s3, Finish(t), []);
    Behind(s2, second, [Finish(t)] + []);
    Follow(s1, Decrement(t), second + ([Finish(t)] + []));
    events := first + ([Decrement(t)] + (second + ([Finish(t)] + [])));
    Behind(s, first, [Decrement(t)] + (second + ([Finish(t)] + [])));
  }

  /** A put-back replaces a point that was set in between, while the framebuffer is still referenced. */
  ghost predicate DropsNewPoint(s: System, events: seq<Event>, t: ThreadId, q: Point)
    requires SafeRun(s, events)
  {
    var r := Run(s, events);
    && LeavesAlone(events, t) && q !in s.known && r.point == Some(q) && r.refCount > 0
    && PutsBack(r, t) && r.alive && q in Apply(r, Finish(t)).released
  }

  ghost predicate CanDropNewPoint(s: System, t: ThreadId) {
    exists events, q :: SafeRun(s, events) && DropsNewPoint(s, events, t, q)
  }

  /** This can happen exactly when somebody else has such a reference, too. */
  lemma NewPointIsDroppedIff(s: System, t: ThreadId)
    requires Inv(s) && s.PcOf(t).Taken? && s.PcOf(t).mine.Some?
    ensures CanDropNewPoint(s, t) <==> Free(s)
  {
    if Free(s) {
      var events, q := DroppingRun(s, t);
      assert DropsNewPoint(s, events, t, q);
    } else {
      hide Free, Dropping;
      forall events, q | SafeRun(s, events) ensures !DropsNewPoint(s, events, t, q) {
        NobodyElse(s, events);
        RunKeepsInv(s, events);
        assert InOnePlace(Run(s, events), q);
      }
    }
  }

  lemma DroppingRun(s: System, t: ThreadId) returns (events: seq<Event>, q: Point)
    requires Counted(s) && s.PcOf(t).Taken? && s.PcOf(t).mine.Some? && Free(s)
    ensures SafeRun(s, events) && DropsNewPoint(s, events, t, q)
  {
    hide SafeRun, Run, LeavesAlone;
    q := ThreadIds.Bound(s.known);
    var first := Backed(s, t);
    var s1 := Run(s, first);
    CountedStep(s1, Decrement(t));
    var s2 := Apply(s1, Decrement(t));
    NoEvents(Apply(s2, SetReleasePoint(q)));
    FollowTwo(s1, Decrement(t), SetReleasePoint(q), []);
    events := first + ([Decrement(t), SetReleasePoint(q)] + []);
    Behind(s, first, [Decrement(t), SetReleasePoint(q)] + []);
    assert LeavesAlone([Decrement(t), SetReleasePoint(q)] + [], t) by { NotFinishing(t, q); }
    BothLeaveAlone(first, [Decrement(t), SetReleasePoint(q)] + [], t);
  }

  lemma NotFinishing(t: ThreadId, q: Point)
    ensures LeavesAlone([Decrement(t), SetReleasePoint(q)] + [], t)
  {}
}
