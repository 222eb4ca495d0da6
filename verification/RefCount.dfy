/**
  The two-counter life cycle of RcObject (src/rc.h): a public and a private 32-bit count, where the public
  count as a whole holds one private reference, and the object deletes itself when the private count drops to 0.

  Each atomic instruction is one event, so another thread may run between the increment of one counter and
  the increment of the other. Threads copy handles only from handles they hold.
*/
module RefCount {
  import opened Options

  type ThreadId = nat
  type HandleId = nat

  const WORD: nat := 0x1_0000_0000
  const BIAS: nat := 0x8000_0000

  type Word = n: nat | n < WORD

  // Arithmetic on uint32_t wraps around.
  function Add(count: Word, n: Word): Word { if count + n < WORD then count + n else count + n - WORD }
  function Sub1(count: Word): Word { if count == 0 then WORD - 1 else count - 1 }

  lemma CountsAreModular(count: Word, n: Word)
    ensures Add(count, n) == (count + n) % WORD && Sub1(count) == (count - 1) % WORD
    ensures Sub1(Add(count, 1)) == count == Add(Sub1(count), 1)
  {}

  // ----- The calls of one thread -----

  datatype Counts = Counts(refCount: Word, refPrivate: Word, deletions: nat)

  function AfterIncRefPrivate(c: Counts): Counts {
    c.(refPrivate := Add(c.refPrivate, 1))
  }

  function AfterIncRef(c: Counts): Counts {
    var c1 := c.(refCount := Add(c.refCount, 1));
    if c.refCount == 0 then AfterIncRefPrivate(c1) else c1
  }

  /** At 0 the object is deleted, and the bias keeps its destructor from deleting it again. */
  function AfterDecRefPrivate(c: Counts): Counts {
    var left := Sub1(c.refPrivate);
    if left == 0 then c.(refPrivate := Add(left, BIAS), deletions := c.deletions + 1) else c.(refPrivate := left)
  }

  function AfterDecRef(c: Counts): Counts {
    var c1 := c.(refCount := Sub1(c.refCount));
    if c1.refCount == 0 then AfterDecRefPrivate(c1) else c1
  }

  // ----- Any number of threads sharing one object -----

  /** A public copy that saw the count at 0 and still has to take the private reference. */
  datatype Increment = Increment(handle: HandleId, from: Option<HandleId>)

  datatype Phase = New | Alive | Destroying(t: ThreadId) | Gone

  datatype System = System(
    refCount: Word,
    refPrivate: Word,
    publics: map<HandleId, ThreadId>,     // who holds which handle
    privates: map<HandleId, ThreadId>,
    increments: map<ThreadId, Increment>, // threads between the two halves of IncRef
    decrements: set<ThreadId>,            // threads between the two halves of DecRef
    deleter: Option<ThreadId>,            // the thread that saw the private count reach 0
    phase: Phase,
    deletions: nat)
  {
    predicate Idle(t: ThreadId) { t !in increments && t !in decrements && deleter != Some(t) }
    predicate Unused(h: HandleId) { h !in publics && h !in privates }
    predicate Holds(t: ThreadId, h: HandleId) {
      (h in publics && publics[h] == t) || (h in privates && privates[h] == t)
    }
    function Count(): Counts { Counts(refCount, refPrivate, deletions) }
    predicate Untouched() { publics == map[] && privates == map[] && increments == map[] && decrements == {} }
  }

  const START := System(0, 0, map[], map[], map[], {}, None, New, 0)

  datatype Event =
    | Adopt(t: ThreadId, h: HandleId, isPublic: bool)  // Rc( T* ): the creator, or the destructor from `this`
    | Copy(t: ThreadId, from: HandleId, h: HandleId, isPublic: bool)
    | FinishIncRef(t: ThreadId)
    | DropPublic(t: ThreadId, h: HandleId)
    | DropPrivate(t: ThreadId, h: HandleId)
    | FinishDecRef(t: ThreadId)
    | Delete(t: ThreadId)
    | EndDestructor(t: ThreadId)
    | Move(t: ThreadId, h: HandleId, to: ThreadId)

  ghost function Load(s: System): nat {
    |s.publics| + |s.privates| + |s.decrements|
  }

  /** There is room for one more handle below 2^31, so neither 32-bit count wraps. */
  ghost predicate Bounded(s: System) {
    Load(s) + 1 < BIAS
  }

  ghost predicate Enabled(s: System, e: Event) {
    match e
    case Adopt(t, h, _) => (s.phase.New? || s.phase == Destroying(t)) && s.Idle(t) && s.Unused(h) && Bounded(s)
    case Copy(t, from, h, _) => s.Idle(t) && s.Holds(t, from) && s.Unused(h) && Bounded(s)
    case FinishIncRef(t) => t in s.increments
    case DropPublic(t, h) => s.Idle(t) && h in s.publics && s.publics[h] == t
    case DropPrivate(t, h) => s.Idle(t) && h in s.privates && s.privates[h] == t
    case FinishDecRef(t) => t in s.decrements
    case Delete(t) => s.deleter == Some(t)
    case EndDestructor(t) => s.phase == Destroying(t) && s.Untouched() && s.deleter.None?
    case Move(t, h, to) => s.Idle(t) && s.Holds(t, h)
  }

  /** The two increments of IncRef; the second waits for its own event when the first saw 0. */
  ghost function TakePublic(s: System, t: ThreadId, from: Option<HandleId>, h: HandleId): System {
    var s1 := s.(refCount := Add(s.refCount, 1), publics := s.publics[h := t]);
    if s.refCount == 0 then s1.(increments := s.increments[t := Increment(h, from)]) else s1
  }

  ghost function TakePrivate(s: System, t: ThreadId, h: HandleId): System {
    s.(refPrivate := Add(s.refPrivate, 1), privates := s.privates[h := t])
  }

  /** `--m_uRefPrivate`; the thread that takes it to 0 goes on to delete the object. */
  ghost function DropOnePrivate(s: System, t: ThreadId): System {
    var left := Sub1(s.refPrivate);
    s.(refPrivate := left, deleter := if left == 0 then Some(t) else s.deleter)
  }

  ghost function Apply(s: System, e: Event): System
    requires Enabled(s, e)
  {
    match e
    case Adopt(t, h, isPublic) =>
      var s1 := s.(phase := if s.phase.New? then Alive else s.phase);
      if isPublic then TakePublic(s1, t, None, h) else TakePrivate(s1, t, h)
    case Copy(t, from, h, isPublic) =>
      if isPublic then TakePublic(s, t, Some(from), h) else TakePrivate(s, t, h)
    case FinishIncRef(t) => s.(refPrivate := Add(s.refPrivate, 1), increments := s.increments - {t})
    case DropPublic(t, h) =>
      var left := Sub1(s.refCount);
      s.(refCount := left, publics := s.publics - {h},
         decrements := if left == 0 then s.decrements + {t} else s.decrements)
    case DropPrivate(t, h) => DropOnePrivate(s.(privates := s.privates - {h}), t)
    case FinishDecRef(t) => DropOnePrivate(s.(decrements := s.decrements - {t}), t)
    case Delete(t) =>
      s.(refPrivate := Add(s.refPrivate, BIAS), deleter := None, phase := Destroying(t), deletions := s.deletions + 1)
    case EndDestructor(_) => s.(phase := Gone)
    case Move(_, h, to) =>
      if h in s.publics then s.(publics := s.publics[h := to]) else s.(privates := s.privates[h := to])
  }

  ghost predicate Next(s: System, s': System) {
    exists e :: Enabled(s, e) && s' == Apply(s, e)
  }

  ghost predicate IsRun(run: seq<System>) {
    run != [] && run[0] == START && forall i :: 0 < i < |run| ==> Next(run[i - 1], run[i])
  }

  // ----- What every event keeps -----

  /** The private references that are owed: private handles, one for the public handles, operations in flight. */
  ghost function Owed(s: System): int {
    |s.privates| + (if s.publics == map[] then 0 else 1) + |s.decrements| - |s.increments|
  }

  ghost predicate Counted(s: System) {
    && s.refCount == |s.publics|
    && Load(s) < BIAS
    && 0 <= Owed(s)
    && s.refPrivate == (if s.phase.Destroying? || s.phase.Gone? then BIAS else 0) + Owed(s)
    && (forall h :: h in s.publics ==> h !in s.privates)
  }

  /** At most one thread is inside IncRef's second half, and it still holds the handle it copies from. */
  ghost predicate IncrementsHeld(s: System) {
    && (forall t, u :: t in s.increments && u in s.increments ==> t == u)
    && (forall t :: t in s.increments ==>
          var i := s.increments[t];
          && t !in s.decrements
          && i.handle in s.publics && s.publics[i.handle] == t
          && (i.from.Some? ==> i.from.value in s.privates && s.privates[i.from.value] == t)
          && (i.from.None? && s.phase.Alive? ==>
                s.decrements == {} && s.privates == map[] && s.publics == map[i.handle := t]))
  }

  ghost predicate Phased(s: System) {
    && (s.phase.New? || s.phase.Gone? ==> s.Untouched() && s.deleter.None?)
    && (s.phase.Destroying? ==> s.deleter.None?)
    && (s.deleter.Some? ==> s.Untouched())
    && (s.phase.Alive? && s.Untouched() ==> s.deleter.Some?)
    && s.deletions == (if s.phase.Destroying? || s.phase.Gone? then 1 else 0)
  }

  ghost predicate Inv(s: System) {
    Counted(s) && IncrementsHeld(s) && Phased(s)
  }

  lemma Removed<K, V>(m: map<K, V>, k: K)
    requires k in m
    ensures |m - {k}| == |m| - 1
  {
    assert m == (m - {k})[k := m[k]];
  }

  /** With one thread at most inside IncRef, removing it leaves none. */
  lemma OneIncrement(s: System, t: ThreadId)
    requires IncrementsHeld(s) && t in s.increments
    ensures s.increments == map[t := s.increments[t]] && |s.increments| == 1
  {
    assert s.increments == map[t := s.increments[t]];
  }

  lemma IncRefKeepsInv(s: System, e: Event)
    requires Inv(s) && Enabled(s, e) && (e.Copy? || e.Adopt?) && e.isPublic
    ensures Inv(Apply(s, e))
  {
    var s' := Apply(s, e);
    assert |s'.publics| == |s.publics| + 1;
    assert forall t :: t in s.increments ==> s.increments[t].handle in s.publics;
    if s.publics == map[] {
      assert s.increments == map[];
      assert s.refCount == 0;
    } else {
      assert |s.publics| > 0 by {
        var h :| h in s.publics;
        Removed(s.publics, h);
      }
    }
  }

  lemma IncRefPrivateKeepsInv(s: System, e: Event)
    requires Inv(s) && Enabled(s, e) && (e.Copy? || e.Adopt?) && !e.isPublic
    ensures Inv(Apply(s, e))
  {
    var s' := Apply(s, e);
    assert |s'.privates| == |s.privates| + 1;
  }

  lemma FinishIncRefKeepsInv(s: System, t: ThreadId)
    requires Inv(s) && t in s.increments
    ensures Inv(Apply(s, FinishIncRef(t)))
  {
    OneIncrement(s, t);
    assert s.increments - {t} == map[];
    assert s.increments[t].handle in s.publics;
  }

  lemma DropPublicKeepsInv(s: System, t: ThreadId, h: HandleId)
    requires Inv(s) && Enabled(s, DropPublic(t, h))
    ensures Inv(Apply(s, DropPublic(t, h)))
  {
    var s' := Apply(s, DropPublic(t, h));
    Removed(s.publics, h);
    if s'.publics != map[] {
      var k :| k in s'.publics;
      Removed(s'.publics, k);
    }
    assert |s.publics| > 0;
  }

  /** The reference a thread inside IncRef still owes is covered by the public handle it is making. */
  lemma OwedIsNatural(s: System)
    requires IncrementsHeld(s)
    ensures Owed(s) >= |s.privates| + |s.decrements|
  {
    if s.increments != map[] {
      var t :| t in s.increments;
      OneIncrement(s, t);
      assert s.increments[t].handle in s.publics;
    }
  }

  lemma NothingOwed(s: System)
    requires IncrementsHeld(s) && Owed(s) == 0
    requires forall t :: t in s.increments ==> s.increments[t].from.Some?
    ensures s.Untouched()
  {
    assert forall t :: t in s.increments ==> s.increments[t].from.value in s.privates;
    OwedIsNatural(s);
    assert |s.decrements| == 0 && |s.privates| == 0;
  }

  /** A drop that takes the private count to 0 happens when nothing refers to the object any more. */
  lemma DecPrivateKeepsInv(s: System, s0: System, t: ThreadId)
    requires IncrementsHeld(s0) && s0.deleter.None? && (s0.phase.Alive? || s0.phase.Destroying?)
    requires forall u :: u in s0.increments && s0.phase.Alive? ==> s0.increments[u].from.Some?
    requires s0.refCount == |s0.publics| && Load(s0) < BIAS && forall h :: h in s0.publics ==> h !in s0.privates
    requires s0.refPrivate == (if s0.phase.Destroying? then BIAS else 0) + Owed(s0) + 1
    requires s0.deletions == if s0.phase.Destroying? then 1 else 0
    requires s == DropOnePrivate(s0, t)
    ensures Inv(s)
  {
    OwedIsNatural(s0);
    assert Owed(s) == Owed(s0);
    if s0.phase.Alive? && Owed(s0) == 0 {
      NothingOwed(s0);
    }
    assert IncrementsHeld(s);
  }

  lemma DropPrivateKeepsInv(s: System, t: ThreadId, h: HandleId)
    requires Inv(s) && Enabled(s, DropPrivate(t, h))
    ensures Inv(Apply(s, DropPrivate(t, h)))
  {
    var s0 := s.(privates := s.privates - {h});
    Removed(s.privates, h);
    assert IncrementsHeld(s0);
    DecPrivateKeepsInv(Apply(s, DropPrivate(t, h)), s0, t);
  }

  lemma FinishDecRefKeepsInv(s: System, t: ThreadId)
    requires Inv(s) && Enabled(s, FinishDecRef(t))
    ensures Inv(Apply(s, FinishDecRef(t)))
  {
    var s0 := s.(decrements := s.decrements - {t});
    assert IncrementsHeld(s0);
    DecPrivateKeepsInv(Apply(s, FinishDecRef(t)), s0, t);
  }

  lemma StepKeepsInv(s: System, e: Event)
    requires Inv(s) && Enabled(s, e)
    ensures Inv(Apply(s, e))
  {
    match e {
      case Adopt(_, _, isPublic) => if isPublic { IncRefKeepsInv(s, e); } else { IncRefPrivateKeepsInv(s, e); }
      case Copy(_, _, _, isPublic) => if isPublic { IncRefKeepsInv(s, e); } else { IncRefPrivateKeepsInv(s, e); }
      case FinishIncRef(t) => FinishIncRefKeepsInv(s, t);
      case DropPublic(t, h) => DropPublicKeepsInv(s, t, h);
      case DropPrivate(t, h) => DropPrivateKeepsInv(s, t, h);
      case FinishDecRef(t) => FinishDecRefKeepsInv(s, t);
      case Delete(_) =>
      case EndDestructor(_) =>
      case Move(_, _, _) =>
    }
  }

  // ----- What an event does -----

  ghost predicate Makes(e: Event, h: HandleId, isPublic: bool) {
    (e.Adopt? || e.Copy?) && e.h == h && e.isPublic == isPublic
  }

  /** Who holds the handle after an event. */
  ghost predicate Follows(holders: map<HandleId, ThreadId>, holders': map<HandleId, ThreadId>, e: Event, k: HandleId,
                          isPublic: bool)
  {
    var dropped := (if isPublic then e.DropPublic? else e.DropPrivate?) && e.h == k;
    var made := Makes(e, k, isPublic);
    && (k in holders' <==> (k in holders && !dropped) || made)
    && (k in holders' ==>
          holders'[k] == if made then e.t else if e.Move? && e.h == k then e.to else holders[k])
  }

  /** Handles come by Adopt and Copy, go by the drops of their kind, change hands by Move, and stay otherwise. */
  lemma HandlesFollowEvents(s: System, e: Event, k: HandleId)
    requires Inv(s) && Enabled(s, e)
    ensures Follows(s.publics, Apply(s, e).publics, e, k, true)
    ensures Follows(s.privates, Apply(s, e).privates, e, k, false)
  {
    hide IncrementsHeld, Phased, Apply, Enabled, Follows;
    PublicsFollow(s, e, k);
    PrivatesFollow(s, e, k);
  }

  lemma PublicsFollow(s: System, e: Event, k: HandleId)
    requires Enabled(s, e) && (k !in s.publics || k !in s.privates)
    ensures Follows(s.publics, Apply(s, e).publics, e, k, true)
  {
    hide Bounded, Add, Sub1;
  }

  lemma PrivatesFollow(s: System, e: Event, k: HandleId)
    requires Enabled(s, e) && (k !in s.publics || k !in s.privates)
    ensures Follows(s.privates, Apply(s, e).privates, e, k, false)
  {
    hide Bounded, Add, Sub1;
  }

  /** The second half of IncRef, where the first half leaves one to do. */
  ghost function FinishedIncRef(s: System, t: ThreadId): System {
    if t in s.increments then Apply(s, FinishIncRef(t)) else s
  }

  /** The second half of DecRef and the deletion, where there is one to do. */
  ghost function FinishedDecRef(s: System, t: ThreadId): System {
    var s1 := if t in s.decrements then Apply(s, FinishDecRef(t)) else s;
    if s1.deleter == Some(t) then Apply(s1, Delete(t)) else s1
  }

  /** Making a handle is IncRef or IncRefPrivate, when nothing comes between the two increments. */
  lemma MakingIsIncRef(s: System, e: Event)
    requires Inv(s) && Enabled(s, e) && (e.Adopt? || e.Copy?)
    ensures var s' := FinishedIncRef(Apply(s, e), e.t);
            && s'.Count() == (if e.isPublic then AfterIncRef(s.Count()) else AfterIncRefPrivate(s.Count()))
            && s'.Idle(e.t) && s'.Holds(e.t, e.h)
  {}

  /** Dropping a handle is DecRef or DecRefPrivate, with the deletion, when nothing comes in between. */
  lemma DroppingIsDecRef(s: System, t: ThreadId, h: HandleId)
    requires Inv(s) && Enabled(s, DropPublic(t, h))
    ensures var s' := FinishedDecRef(Apply(s, DropPublic(t, h)), t);
            s'.Count() == AfterDecRef(s.Count()) && s'.Idle(t) && !s'.Holds(t, h)
  {
    hide IncrementsHeld, Owed;
    assert s.deleter != Some(t) && t !in s.decrements;
  }

  lemma DroppingIsDecRefPrivate(s: System, t: ThreadId, h: HandleId)
    requires Inv(s) && Enabled(s, DropPrivate(t, h))
    ensures var s' := FinishedDecRef(Apply(s, DropPrivate(t, h)), t);
            s'.Count() == AfterDecRefPrivate(s.Count()) && s'.Idle(t) && !s'.Holds(t, h)
  {
    hide IncrementsHeld, Owed;
    assert s.deleter != Some(t) && t !in s.decrements;
  }

  // ----- Main results, over every run of any number of threads -----

  lemma {:induction false} RunKeepsInv(run: seq<System>, i: nat)
    requires IsRun(run) && i < |run|
    ensures Inv(run[i])
  {
    if i > 0 {
      RunKeepsInv(run, i - 1);
      assert Next(run[i - 1], run[i]);
      var e :| Enabled(run[i - 1], e) && run[i] == Apply(run[i - 1], e);
      StepKeepsInv(run[i - 1], e);
    }
  }

  /**
    The object is deleted only when no thread has a handle or is inside IncRef or DecRef, at most once in its
    life, and never again from its own destructor, whatever handles the destructor creates and drops.
  */
  lemma DeletedOnceAndUnreferenced(run: seq<System>, i: nat, t: ThreadId)
    requires IsRun(run) && i < |run|
    ensures Enabled(run[i], Delete(t)) ==> run[i].Untouched() && run[i].phase.Alive? && run[i].deletions == 0
    ensures run[i].deletions <= 1
    ensures run[i].deletions == 1 <==> run[i].phase.Destroying? || run[i].phase.Gone?
  {
    RunKeepsInv(run, i);
  }

  /** No leak: a live object that nothing refers to is about to be deleted, and both its counts are 0. */
  lemma UnreferencedIsDeleted(run: seq<System>, i: nat)
    requires IsRun(run) && i < |run| && run[i].phase.Alive?
    ensures run[i].Untouched() <==> run[i].deleter.Some?
    ensures run[i].deleter.Some? ==> run[i].refCount == 0 && run[i].refPrivate == 0
  {
    RunKeepsInv(run, i);
  }

  /** Between operations the counters are exact: one private reference stands for all public handles together. */
  lemma CountersAreExact(run: seq<System>, i: nat)
    requires IsRun(run) && i < |run| && run[i].increments == map[] && run[i].decrements == {}
    ensures var s := run[i];
            && s.refCount == |s.publics|
            && s.refPrivate ==
                 |s.privates| + (if s.publics == map[] then 0 else 1) + (if s.deletions == 0 then 0 else BIAS)
  {
    RunKeepsInv(run, i);
  }

  /** Without the bias the destructor's own handle would delete the object a second time. */
  lemma BiasIsNeeded(s: System, t: ThreadId, h: HandleId)
    requires Inv(s) && Enabled(s, Delete(t)) && s.Unused(h)
    ensures var unbiased := Apply(s, Delete(t)).(refPrivate := s.refPrivate);
            var adopted := Apply(unbiased, Adopt(t, h, false));
            Apply(adopted, DropPrivate(t, h)).deleter == Some(t)
    ensures var biased := Apply(s, Delete(t));
            var adopted := Apply(biased, Adopt(t, h, false));
            Apply(adopted, DropPrivate(t, h)).deleter.None?
  {}

  // ----- The object and its handles -----

  class RcObject {
    var refCount: Word
    var refPrivate: Word
    ghost var deletions: nat

    ghost function Count(): Counts
      reads this
    {
      Counts(refCount, refPrivate, deletions)
    }

    constructor ()
      ensures Count() == Counts(0, 0, 0)
    {
      refCount, refPrivate, deletions := 0, 0, 0;
    }

    method IncRef() returns (before: Word)
      modifies this
      ensures before == old(refCount) && Count() == AfterIncRef(old(Count()))
    {
      before := refCount;
      refCount := Add(refCount, 1);
      if before == 0 {
        var _ := IncRefPrivate();
      }
    }

    method DecRef() returns (left: Word)
      modifies this
      ensures left == refCount && Count() == AfterDecRef(old(Count()))
    {
      refCount := Sub1(refCount);
      left := refCount;
      if left == 0 {
        var _ := DecRefPrivate();
      }
    }

    method IncRefPrivate() returns (before: Word)
      modifies this
      ensures before == old(refPrivate) && Count() == AfterIncRefPrivate(old(Count()))
    {
      before := refPrivate;
      refPrivate := Add(refPrivate, 1);
    }

    method DecRefPrivate() returns (left: Word)
      modifies this
      ensures left == Sub1(old(refPrivate)) && Count() == AfterDecRefPrivate(old(Count()))
    {
      refPrivate := Sub1(refPrivate);
      left := refPrivate;
      if left == 0 {
        refPrivate := Add(refPrivate, BIAS);
        deletions := deletions + 1;  // delete this
      }
    }
  }

  /** A public handle, `Rc<T>`. Its operations keep every object's count equal to the handles that point to it. */
  class Rc {
    var target: RcObject?

    ghost function Points(o: RcObject): int
      reads this
    {
      if target == o then 1 else 0
    }

    constructor (o: RcObject?)
      modifies o
      ensures target == o
      ensures o != null ==> o.refCount == Add(old(o.refCount), 1)
    {
      target := o;
      new;
      if o != null {
        var _ := o.IncRef();
      }
    }

    /** `*this = other`: takes the new reference before dropping the old one, so self-assignment is harmless. */
    method Assign(other: Rc)
      requires target != null ==> target.refCount > 0
      requires other.target != null ==> 0 < other.target.refCount < WORD - 1
      modifies this, target, other.target
      ensures target == old(other.target) && other.target == old(other.target)
      ensures forall o: RcObject :: o == old(target) || o == target ==>
                o.refCount - old(o.refCount) == Points(o) - old(Points(o))
      ensures old(target) == old(other.target) != null ==> target.deletions == old(target.deletions)
    {
      if other.target != null {
        var _ := other.target.IncRef();
      }
      if target != null {
        var _ := target.DecRef();
      }
      target := other.target;
    }

    /** `*this = std::move(other)`: the reference changes hands; a handle moved onto itself ends up empty. */
    method MoveAssign(other: Rc)
      requires target != null ==> target.refCount > 0
      modifies this, other, target
      ensures other.target == null && (other != this ==> target == old(other.target))
      ensures forall o: RcObject :: o == old(target) || o == old(other.target) ==>
                o.refCount - old(o.refCount) ==
                Points(o) - old(Points(o)) + (if other == this then 0 else other.Points(o) - old(other.Points(o)))
    {
      if target != null {
        var _ := target.DecRef();
      }
      target := other.target;
      other.target := null;
    }

    /** `*this = nullptr`, and the destructor. */
    method Clear()
      requires target != null ==> target.refCount > 0
      modifies this, target
      ensures target == null
      ensures forall o: RcObject :: o == old(target) ==> o.refCount == old(o.refCount) - 1
    {
      if target != null {
        var _ := target.DecRef();
      }
      target := null;
    }
  }
}
