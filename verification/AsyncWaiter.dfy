/**
  CAsyncWaiter of src/waitable.h: a thread that polls file descriptors and keeps the objects behind them alive by
  strong references of its own. Other threads add and remove waitables in steps the thread can come between.
*/
module AsyncWaiter {
  import opened Options

  type Id(==) = nat

  // ----- The vectors -----

  /** std::erase: every entry equal to o goes. */
  function Erase(v: seq<Id>, o: Id): (r: seq<Id>)
    ensures forall x :: x in r <==> x in v && x != o
  {
    if v == [] then []
    else if v[0] == o then Erase(v[1..], o)
    else [v[0]] + Erase(v[1..], o)
  }

  function EraseAll(v: seq<Id>, gone: seq<Id>): (r: seq<Id>)
    ensures forall x :: x in r <==> x in v && x !in gone
    decreases |gone|
  {
    if gone == [] then v else EraseAll(Erase(v, gone[0]), gone[1..])
  }

  /** The fields of the waiter, and the kernel's set of polled objects. */
  class Waiter {
    var registered: set<Id>
    var added: seq<Id>
    var removed: seq<Id>

    constructor ()
      ensures registered == {} && added == [] && removed == []
    {
      registered, added, removed := {}, [], [];
    }

    /** AddWaitable; `live` is HasLiveReferences, and epoll refuses what it already polls. */
    method AddWaitable(o: Id, live: bool) returns (ok: bool)
      modifies this
      ensures ok <==> live && o !in old(registered)
      ensures registered == (if ok then old(registered) + {o} else old(registered))
      ensures added == (if ok then old(added) + [o] else old(added)) && removed == old(removed)
    {
      if !live { return false; }
      if o in registered { return false; }
      registered := registered + {o};
      added := added + [o];
      return true;
    }

    /** RemoveWaitable with nothing coming between its two steps. */
    method RemoveWaitable(o: Id, live: bool)
      modifies this
      ensures registered == (if live then old(registered) - {o} else old(registered))
      ensures removed == (if live then old(removed) + [o] else old(removed)) && added == old(added)
    {
      if !live { return; }
      removed := removed + [o];
      registered := registered - {o};
    }

    /** The end of a turn of WaiterThreadFunc. */
    method Sweep()
      modifies this
      ensures added == EraseAll(old(added), old(removed)) && removed == [] && registered == old(registered)
    {
      for i := 0 to |removed|
        invariant removed == old(removed) && registered == old(registered)
        invariant EraseAll(added, removed[i..]) == EraseAll(old(added), removed)
      {
        added := Erase(added, removed[i]);
      }
      removed := [];
    }
  }

  // ----- The protocol -----

  datatype State = State(
    registered: set<Id>,
    added: seq<Id>,
    removed: seq<Id>,
    /** The AddWaitable call that holds the lock on `added`, between epoll_ctl and emplace_back. */
    adding: Option<Id>,
    /** RemoveWaitable calls between their push and epoll_ctl; each call holds its argument alive. */
    removing: multiset<Id>,
    polling: bool,
    /** The objects whose handlers run in this turn. */
    batch: set<Id>,
    /** The objects somebody outside of the waiter holds a reference to. */
    outside: set<Id>,
    /** The objects added again since they were last put on `removed`. */
    addedAgain: set<Id>)

  datatype Event =
    | AddBegin(o: Id)
    | AddEnd
    | RemovePush(o: Id)
    | RemoveFinish(o: Id)
    | PollBegin(ready: set<Id>)
    | Sweep
    | Acquire(o: Id)
    | Drop(o: Id)

  const INIT := State({}, [], [], None, multiset{}, false, {}, {}, {})

  /** The strong references that last through a whole batch. */
  predicate Kept(s: State, o: Id) {
    o in s.added || s.adding == Some(o)
  }

  predicate Alive(s: State, o: Id) {
    Kept(s, o) || o in s.removed || o in s.removing || o in s.outside
  }

  predicate Enabled(s: State, e: Event) {
    match e
    case AddBegin(o) => s.adding == None && o in s.outside && o !in s.registered
    case AddEnd => s.adding.Some?
    case RemovePush(o) => Alive(s, o)
    case RemoveFinish(o) => o in s.removing
    case PollBegin(ready) => !s.polling && ready <= s.registered
    case Sweep => s.polling && s.adding == None
    case Acquire(o) => true
    case Drop(o) => s.adding != Some(o)
  }

  function Apply(s: State, e: Event): State {
    match e
    case AddBegin(o) =>
      s.(registered := s.registered + {o}, adding := Some(o),
         addedAgain := if o in s.removed then s.addedAgain + {o} else s.addedAgain)
    case AddEnd => if s.adding.Some? then s.(added := s.added + [s.adding.value], adding := None) else s
    case RemovePush(o) =>
      s.(removed := s.removed + [o], removing := s.removing + multiset{o}, addedAgain := s.addedAgain - {o})
    case RemoveFinish(o) => s.(removing := s.removing - multiset{o}, registered := s.registered - {o})
    case PollBegin(ready) => s.(polling := true, batch := ready)
    case Sweep =>
      s.(added := EraseAll(s.added, s.removed), removed := [], polling := false, batch := {}, addedAgain := {})
    case Acquire(o) => s.(outside := s.outside + {o})
    case Drop(o) => s.(outside := s.outside - {o})
  }

  /** A sweep is clean when nothing it lets go of is still polled. */
  predicate CleanSweep(s: State) {
    forall o :: o in s.removed ==> o !in s.registered
  }

  /** A run whose steps are possible and whose sweeps are clean. */
  ghost predicate CleanRun(s: State, events: seq<Event>)
    decreases |events|
  {
    events == [] ||
    (Enabled(s, events[0]) && (events[0].Sweep? ==> CleanSweep(s)) && CleanRun(Apply(s, events[0]), events[1..]))
  }

  ghost predicate Possible(s: State, events: seq<Event>)
    decreases |events|
  {
    events == [] || (Enabled(s, events[0]) && Possible(Apply(s, events[0]), events[1..]))
  }

  function Run(s: State, events: seq<Event>): State
    decreases |events|
  {
    if events == [] then s else Run(Apply(s, events[0]), events[1..])
  }

  ghost predicate BatchKept(s: State) {
    forall o :: o in s.batch ==> Kept(s, o)
  }

  ghost predicate Inv(s: State) {
    && (forall o :: o in s.registered ==> Kept(s, o))
    && BatchKept(s)
    && (!s.polling ==> s.batch == {})
    && (forall o :: o in s.removed && o in s.registered ==> o in s.removing || o in s.addedAgain)
  }

  /** A call of the waiter that nothing comes in between is its two steps in a row. */
  lemma CallsAreTheirSteps(s: State, o: Id)
    ensures Enabled(s, AddBegin(o)) ==>
              var t := Apply(Apply(s, AddBegin(o)), AddEnd);
              && Enabled(Apply(s, AddBegin(o)), AddEnd)
              && t.registered == s.registered + {o} && t.added == s.added + [o] && t.removed == s.removed
              && t.adding == None
    ensures Enabled(s, RemovePush(o)) ==>
              var t := Apply(Apply(s, RemovePush(o)), RemoveFinish(o));
              && Enabled(Apply(s, RemovePush(o)), RemoveFinish(o))
              && t.registered == s.registered - {o} && t.added == s.added && t.removed == s.removed + [o]
              && t.removing == s.removing
  {
    assert s.removing + multiset{o} - multiset{o} == s.removing;
  }

  // ----- Every batch is kept alive while sweeps are clean -----

  lemma StepKeepsInv(s: State, e: Event)
    requires Inv(s) && Enabled(s, e) && (e.Sweep? ==> CleanSweep(s))
    ensures Inv(Apply(s, e))
  {}

  lemma {:induction false} CleanRunKeepsInv(s: State, events: seq<Event>)
    requires Inv(s) && CleanRun(s, events)
    ensures Inv(Run(s, events))
    decreases |events|
  {
    hide Inv, Apply, Enabled;
    if events != [] {
      StepKeepsInv(s, events[0]);
      CleanRunKeepsInv(Apply(s, events[0]), events[1..]);
    }
  }

  /**
    In whatever order the steps of the threads come, as long as sweeps are clean the waiter itself holds a strong
    reference to every object whose handlers run, from the poll that returned it to the end of the turn.
  */
  lemma BatchesAreKeptAlive(events: seq<Event>)
    requires CleanRun(INIT, events)
    ensures BatchKept(Run(INIT, events))
  {
    CleanRunKeepsInv(INIT, events);
  }

  /** A sweep is clean when no removal is half done and nothing has been added again since it was removed. */
  lemma SettledSweepIsClean(s: State)
    requires Inv(s) && forall o :: o in s.removed ==> o !in s.removing && o !in s.addedAgain
    ensures CleanSweep(s)
  {}

  // ----- A sweep that is not clean can leave a handler with a dead object -----

  lemma CleanRunOfAppend(s: State, a: seq<Event>, b: seq<Event>)
    requires CleanRun(s, a) && CleanRun(Run(s, a), b)
    ensures CleanRun(s, a + b) && Run(s, a + b) == Run(Run(s, a), b)
    decreases |a|
  {
    hide Apply, Enabled;
    if a == [] {
      assert a + b == b;
    } else {
      CleanRunOfAppend(Apply(s, a[0]), a[1..], b);
      assert (a + b)[1..] == a[1..] + b;
    }
  }

  /** Every pending removal of o is finished. */
  lemma {:induction false} FinishRemovals(s: State, o: Id) returns (events: seq<Event>)
    ensures CleanRun(s, events) && o !in Run(s, events).removing
    ensures var t := Run(s, events);
            t.added == s.added && t.removed == s.removed && t.adding == s.adding && t.polling == s.polling
            && t.batch == s.batch && t.outside == s.outside
    decreases s.removing[o]
  {
    if o in s.removing {
      var next := Apply(s, RemoveFinish(o));
      var rest := FinishRemovals(next, o);
      events := [RemoveFinish(o)] + rest;
      assert events[1..] == rest;
    } else {
      events := [];
    }
  }

  lemma OneEvent(s: State, e: Event)
    requires Enabled(s, e) && !e.Sweep?
    ensures CleanRun(s, [e]) && Run(s, [e]) == Apply(s, e)
  {
    hide Apply, Enabled;
    assert [e][1..] == [];
  }

  /** The object is polled once more, its removal ends and its last owner lets go while its handlers run. */
  lemma DirtySweepGoesWrong(s: State, o: Id) returns (events: seq<Event>)
    requires Enabled(s, Sweep) && o in s.removed && o in s.registered
    ensures CleanRun(Apply(s, Sweep), events)
    ensures o in Run(Apply(s, Sweep), events).batch && !Alive(Run(Apply(s, Sweep), events), o)
  {
    var swept := Apply(s, Sweep);
    var polled := Apply(swept, PollBegin({o}));
    OneEvent(swept, PollBegin({o}));
    var finish := FinishRemovals(polled, o);
    var finished := Run(polled, finish);
    OneEvent(finished, Drop(o));
    CleanRunOfAppend(polled, finish, [Drop(o)]);
    CleanRunOfAppend(swept, [PollBegin({o})], finish + [Drop(o)]);
    events := [PollBegin({o})] + (finish + [Drop(o)]);
  }

  ghost predicate BatchAlive(s: State) {
    forall o :: o in s.batch ==> Alive(s, o)
  }

  /** However things go on after the sweep, no handler runs on a dead object. */
  ghost predicate SafeFrom(s: State) {
    forall events: seq<Event> :: CleanRun(s, events) ==> BatchAlive(Run(s, events))
  }

  /** A sweep is safe exactly when it is clean. */
  lemma SweepIsSafeIffClean(s: State)
    requires Inv(s) && Enabled(s, Sweep)
    ensures SafeFrom(Apply(s, Sweep)) <==> CleanSweep(s)
  {
    if CleanSweep(s) {
      StepKeepsInv(s, Sweep);
      forall events: seq<Event> | CleanRun(Apply(s, Sweep), events)
        ensures BatchAlive(Run(Apply(s, Sweep), events))
      {
        CleanRunKeepsInv(Apply(s, Sweep), events);
      }
    } else {
      var o :| o in s.removed && o in s.registered;
      var events := DirtySweepGoesWrong(s, o);
      assert !BatchAlive(Run(Apply(s, Sweep), events));
    }
  }

  /**
    The window is there in the code: RemoveWaitable gives up its lock between its push and epoll_ctl, and a sweep
    can come in between.
  */
  lemma RemovalCanBeSweptHalfway() returns (events: seq<Event>)
    ensures CleanRun(INIT, events) && Enabled(Run(INIT, events), Sweep)
    ensures !CleanSweep(Run(INIT, events)) && Run(INIT, events).addedAgain == {}
  {
    events := [Acquire(1), AddBegin(1), AddEnd, PollBegin({1}), RemovePush(1)];
    var s1 := Apply(INIT, Acquire(1));
    var s2 := Apply(s1, AddBegin(1));
    var s3 := Apply(s2, AddEnd);
    var s4 := Apply(s3, PollBegin({1}));
    Follow(INIT, events);
    Follow(s1, events[1..]);
    Follow(s2, events[2..]);
    Follow(s3, events[3..]);
    Follow(s4, events[4..]);
    assert events[5..] == [];
    assert 1 in Run(INIT, events).removed && 1 in Run(INIT, events).registered;
  }

  lemma Follow(s: State, events: seq<Event>)
    requires events != [] && Enabled(s, events[0]) && !events[0].Sweep?
    ensures CleanRun(s, events) <==> CleanRun(Apply(s, events[0]), events[1..])
    ensures Run(s, events) == Run(Apply(s, events[0]), events[1..])
  {}

  // ----- References go away, and not too early -----

  ghost predicate NoSweep(events: seq<Event>) {
    forall i :: 0 <= i < |events| ==> !events[i].Sweep?
  }

  /** An object stays referenced from its addition to the sweep after its removal. */
  lemma {:induction false} KeptUntilSwept(s: State, events: seq<Event>, o: Id)
    requires Possible(s, events) && NoSweep(events) && Kept(s, o)
    ensures Kept(Run(s, events), o)
    decreases |events|
  {
    if events != [] {
      KeptUntilSwept(Apply(s, events[0]), events[1..], o);
    }
  }

  lemma {:induction false} RemovedUntilSwept(s: State, events: seq<Event>, o: Id)
    requires Possible(s, events) && NoSweep(events) && o in s.removed
    ensures o in Run(s, events).removed
    decreases |events|
  {
    if events != [] {
      RemovedUntilSwept(Apply(s, events[0]), events[1..], o);
    }
  }

  /** The first sweep after a removal lets go of every reference the waiter's vectors hold to the object. */
  lemma RemovedIsLetGo(s: State, events: seq<Event>, o: Id)
    requires Possible(s, events) && NoSweep(events) && o in s.removed && Enabled(Run(s, events), Sweep)
    ensures var t := Apply(Run(s, events), Sweep); !Kept(t, o) && o !in t.removed
  {
    RemovedUntilSwept(s, events, o);
  }
}
