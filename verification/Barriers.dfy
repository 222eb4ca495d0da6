/**
  Image barriers of a CVulkanCmdBuffer (src/rendervulkan.cpp): five flags per image decide which barriers the
  recorder emits before each dispatch or copy and when the recording ends.

  `Recorder` is the object with its flags. `History` is an independent account of one image, computed from the
  emitted commands alone; it knows nothing of the flags and notices every hazard in the command stream.
*/
module Barriers {
  import opened Options

  /** A texture: whether its memory is shared with another process, and whether it is a swapchain image. */
  datatype Image = Image(id: nat, external: bool, output: bool)

  datatype TextureState = TextureState(
    discarded: bool, dirty: bool, needsPresentLayout: bool, needsExport: bool, needsImport: bool)

  const CLEAN := TextureState(false, false, false, false, false)

  /** The queue family an image remembers, the one of the recorder, and that of the other process. */
  datatype Queue = Remembered | Recorder | Foreign

  datatype Layout = Undefined | General | Present

  datatype ImageBarrier = ImageBarrier(
    flushesWrites: bool, makesVisible: bool, oldLayout: Layout, newLayout: Layout, source: Queue, destination: Queue)

  /** `luts` are the colour tables a dispatch samples without preparing them. */
  datatype Command =
    | Barrier(images: map<Image, ImageBarrier>)
    | Use(sources: set<Image>, luts: set<Image>, writes: set<Image>)

  datatype Recording = Recording(states: map<Image, TextureState>, commands: seq<Command>)

  // ----- The recorder's steps -----

  predicate NeedsBarrier(state: TextureState, flush: bool) {
    state.discarded || state.dirty || state.needsImport || (flush && (state.needsExport || state.needsPresentLayout))
  }

  function BarrierFor(state: TextureState, flush: bool): ImageBarrier {
    var exports := flush && state.needsExport;
    ImageBarrier(
      state.dirty,
      !flush,
      if state.discarded then Undefined else General,
      if flush && state.needsPresentLayout then Present else General,
      if !exports && state.needsImport then Foreign else Remembered,
      if exports then Foreign else Recorder)
  }

  function Settled(state: TextureState): TextureState {
    state.(discarded := false, dirty := false, needsImport := false)
  }

  function AfterInsertBarrier(r: Recording, flush: bool): Recording {
    Recording(
      map i | i in r.states :: Settled(r.states[i]),
      r.commands +
      [Barrier(map i | i in r.states && NeedsBarrier(r.states[i], flush) :: BarrierFor(r.states[i], flush))])
  }

  function AfterPrepareSrc(r: Recording, image: Image): Recording {
    if image in r.states then r
    else r.(states := r.states[image := CLEAN.(needsImport := image.external, needsExport := image.external)])
  }

  function AfterPrepareDest(r: Recording, image: Image): Recording {
    if image in r.states then r
    else r.(states := r.states[image :=
              CLEAN.(discarded := true, needsExport := image.external, needsPresentLayout := image.output)])
  }

  function AfterDiscard(r: Recording, image: Image): Recording {
    if image in r.states then r else r.(states := r.states[image := CLEAN.(discarded := true)])
  }

  function AfterMarkDirty(r: Recording, image: Image): Recording
    requires image in r.states
  {
    r.(states := r.states[image := r.states[image].(dirty := true)])
  }

  function AfterPrepareSources(r: Recording, bound: seq<Option<Image>>): Recording {
    if bound == [] then r
    else
      var before := AfterPrepareSources(r, bound[..|bound| - 1]);
      match bound[|bound| - 1]
      case None => before
      case Some(image) => AfterPrepareSrc(before, image)
  }

  function Bound(bound: seq<Option<Image>>): set<Image> {
    set b | b in bound && b.Some? :: b.value
  }

  /** Barrier, then the command that reads and writes, then the written image is dirty. */
  function AfterUse(r: Recording, sources: set<Image>, luts: set<Image>, target: Image): Recording
    requires target in r.states
  {
    var ready := AfterInsertBarrier(r, false);
    AfterMarkDirty(ready.(commands := ready.commands + [Use(sources, luts, {target})]), target)
  }

  function AfterDispatch(r: Recording, bound: seq<Option<Image>>, luts: set<Image>, target: Image): Recording {
    AfterUse(AfterPrepareDest(AfterPrepareSources(r, bound), target), Bound(bound), luts, target)
  }

  function AfterCopyImage(r: Recording, src: Image, dst: Image): Recording {
    AfterUse(AfterPrepareDest(AfterPrepareSrc(r, src), dst), {src}, {}, dst)
  }

  function AfterCopyBuffer(r: Recording, dst: Image): Recording {
    AfterUse(AfterPrepareDest(r, dst), {}, {}, dst)
  }

  /** The images outside of `todo` have been looked at. */
  ghost predicate Visited(
    before: map<Image, TextureState>, todo: set<Image>, states: map<Image, TextureState>,
    barriers: map<Image, ImageBarrier>, flush: bool)
  {
    && states.Keys == before.Keys
    && (forall i :: i in before ==> states[i] == if i in todo then before[i] else Settled(before[i]))
    && (forall i :: i in barriers <==> i in before && i !in todo && NeedsBarrier(before[i], flush))
    && (forall i :: i in barriers ==> barriers[i] == BarrierFor(before[i], flush))
  }

  lemma VisitOne(
    before: map<Image, TextureState>, todo: set<Image>, states: map<Image, TextureState>,
    barriers: map<Image, ImageBarrier>, flush: bool, image: Image)
    requires Visited(before, todo, states, barriers, flush) && image in todo && image in before
    ensures NeedsBarrier(before[image], flush) ==>
              Visited(before, todo - {image}, states[image := Settled(before[image])],
                      barriers[image := BarrierFor(before[image], flush)], flush)
    ensures !NeedsBarrier(before[image], flush) ==> Visited(before, todo - {image}, states, barriers, flush)
  {}

  lemma NothingVisited(before: map<Image, TextureState>, flush: bool)
    ensures Visited(before, before.Keys, before, map[], flush)
  {}

  lemma SettledIs(state: TextureState)
    ensures Settled(state) == state.(discarded := false, dirty := false, needsImport := false)
  {}

  lemma StillToVisit(
    before: map<Image, TextureState>, todo: set<Image>, states: map<Image, TextureState>,
    barriers: map<Image, ImageBarrier>, flush: bool, image: Image)
    requires Visited(before, todo, states, barriers, flush) && image in todo && image in before
    ensures image in states && states[image] == before[image] && image !in barriers
  {}

  lemma VisitedAll(
    before: map<Image, TextureState>, states: map<Image, TextureState>, barriers: map<Image, ImageBarrier>, flush: bool)
    requires Visited(before, {}, states, barriers, flush)
    ensures states == map i | i in before :: Settled(before[i])
    ensures barriers == map i | i in before && NeedsBarrier(before[i], flush) :: BarrierFor(before[i], flush)
  {}

  /** An image remembers the family of the recorder that is the first to record a barrier on it. */
  function Remember(families: map<Image, nat>, family: nat, images: set<Image>): map<Image, nat> {
    map i | i in families.Keys + images :: if i in families then families[i] else family
  }

  function Families(families: map<Image, nat>, family: nat, commands: seq<Command>): map<Image, nat>
    decreases |commands|
  {
    if commands == [] then families
    else
      var before := Families(families, family, commands[..|commands| - 1]);
      match commands[|commands| - 1]
      case Barrier(images) => Remember(before, family, images.Keys)
      case Use(_, _, _) => before
  }

  lemma FamiliesNext(families: map<Image, nat>, family: nat, commands: seq<Command>, c: Command)
    ensures Families(families, family, commands + [c]) ==
            var before := Families(families, family, commands);
            if c.Barrier? then Remember(before, family, c.images.Keys) else before
  {
    assert (commands + [c])[..|commands|] == commands;
  }

  lemma RememberOne(families: map<Image, nat>, family: nat, images: set<Image>, image: Image)
    ensures Remember(families, family, images + {image}) ==
            var before := Remember(families, family, images);
            if image in before then before else before[image := family]
  {}

  lemma RememberNothing(families: map<Image, nat>, family: nat)
    ensures Remember(families, family, {}) == families
  {}

  class Recorder {
    var textureState: map<Image, TextureState>
    var commands: seq<Command>
    const queueFamily: nat
    var families: map<Image, nat>        // CVulkanTexture::queueFamily, where it is set
    ghost var initial: map<Image, nat>   // the same as the recording began

    ghost function Abstract(): Recording
      reads this
    {
      Recording(textureState, commands)
    }

    /** What the images remember follows from the commands recorded. */
    ghost predicate Valid()
      reads this
    {
      families == Families(initial, queueFamily, commands)
    }

    constructor (queueFamily: nat, families: map<Image, nat>)
      ensures Valid() && Abstract() == Recording(map[], [])
      ensures this.queueFamily == queueFamily && initial == families
    {
      textureState, commands := map[], [];
      this.queueFamily, this.families, initial := queueFamily, families, families;
    }

    method PrepareSrcImage(image: Image)
      requires image in textureState || !image.output  // the original's assertion
      requires Valid()
      modifies this
      ensures Valid() && initial == old(initial)
      ensures Abstract() == AfterPrepareSrc(old(Abstract()), image)
    {
      if image in textureState {
        return;
      }
      var state := CLEAN;
      state := state.(needsImport := image.external);
      state := state.(needsExport := image.external);
      textureState := textureState[image := state];
    }

    method PrepareDestImage(image: Image)
      requires Valid()
      modifies this
      ensures Valid() && initial == old(initial)
      ensures Abstract() == AfterPrepareDest(old(Abstract()), image)
    {
      if image in textureState {
        return;
      }
      var state := CLEAN;
      state := state.(discarded := true);
      state := state.(needsExport := image.external);
      state := state.(needsPresentLayout := image.output);
      textureState := textureState[image := state];
    }

    method DiscardImage(image: Image)
      requires Valid()
      modifies this
      ensures Valid() && initial == old(initial)
      ensures Abstract() == AfterDiscard(old(Abstract()), image)
    {
      if image in textureState {
        return;
      }
      textureState := textureState[image := CLEAN.(discarded := true)];
    }

    method MarkDirty(image: Image)
      requires image in textureState
      requires Valid()
      modifies this
      ensures Valid() && initial == old(initial)
      ensures Abstract() == AfterMarkDirty(old(Abstract()), image)
    {
      textureState := textureState[image := textureState[image].(dirty := true)];
    }

    /** The std::unordered_map is visited in an arbitrary order, which does not matter to the barrier. */
    method InsertBarrier(flush: bool)
      requires forall i :: i in textureState ==> !flush || !textureState[i].needsImport  // asserted in the loop
      requires Valid()
      modifies this
      ensures Valid() && initial == old(initial)
      ensures Abstract() == AfterInsertBarrier(old(Abstract()), flush)
    {
      hide Visited, Remember, Families, Settled;
      ghost var before := textureState;
      var barriers: map<Image, ImageBarrier> := map[];
      NothingVisited(before, flush);
      RememberNothing(families, queueFamily);
      assert barriers.Keys == {};
      var todo := textureState.Keys;
      while todo != {}
        invariant todo <= before.Keys && commands == old(commands)
        invariant Visited(before, todo, textureState, barriers, flush) && initial == old(initial)
        invariant families == Remember(old(families), queueFamily, barriers.Keys)
        decreases todo
      {
        var image :| image in todo;
        StillToVisit(before, todo, textureState, barriers, flush, image);
        VisitOne(before, todo, textureState, barriers, flush, image);
        todo := todo - {image};
        var state := textureState[image];
        assert !flush || !state.needsImport;
        var isExport := flush && state.needsExport;
        var isPresent := flush && state.needsPresentLayout;
        if !state.discarded && !state.dirty && !state.needsImport && !isExport && !isPresent {
          continue;
        }
        ghost var covered := barriers.Keys;
        RememberOne(old(families), queueFamily, covered, image);
        if image !in families {
          families := families[image := queueFamily];
        }
        barriers := barriers[image := ImageBarrier(
          state.dirty,
          !flush,
          if state.discarded then Undefined else General,
          if isPresent then Present else General,
          if isExport then Remembered else if state.needsImport then Foreign else Remembered,
          if isExport then Foreign else Queue.Recorder)];
        assert barriers.Keys == covered + {image} && barriers[image] == BarrierFor(before[image], flush);
        state := state.(discarded := false, dirty := false, needsImport := false);
        SettledIs(before[image]);
        textureState := textureState[image := state];
      }
      FamiliesNext(initial, queueFamily, commands, Barrier(barriers));
      commands := commands + [Barrier(barriers)];
      VisitedAll(before, textureState, barriers, flush);
    }

    method Dispatch(bound: seq<Option<Image>>, luts: set<Image>, target: Image)
      requires forall i :: i in Bound(bound) ==> i in textureState || !i.output
      requires Valid()
      modifies this
      ensures Valid() && initial == old(initial)
      ensures Abstract() == AfterDispatch(old(Abstract()), bound, luts, target)
    {
      for slot := 0 to |bound|
        invariant Valid() && initial == old(initial)
        invariant Abstract() == AfterPrepareSources(old(Abstract()), bound[..slot])
        invariant old(textureState).Keys <= textureState.Keys
      {
        assert bound[..slot + 1][..slot] == bound[..slot];
        if bound[slot].Some? {
          assert bound[slot] in bound && bound[slot].value in Bound(bound);
          PrepareSrcImage(bound[slot].value);
        }
      }
      assert bound[..|bound|] == bound;
      PrepareDestImage(target);
      InsertBarrier(false);
      FamiliesNext(initial, queueFamily, commands, Use(Bound(bound), luts, {target}));
      commands := commands + [Use(Bound(bound), luts, {target})];
      MarkDirty(target);
    }

    method CopyImage(src: Image, dst: Image)
      requires src in textureState || !src.output
      requires Valid()
      modifies this
      ensures Valid() && initial == old(initial)
      ensures Abstract() == AfterCopyImage(old(Abstract()), src, dst)
    {
      PrepareSrcImage(src);
      PrepareDestImage(dst);
      InsertBarrier(false);
      FamiliesNext(initial, queueFamily, commands, Use({src}, {}, {dst}));
      commands := commands + [Use({src}, {}, {dst})];
      MarkDirty(dst);
    }

    method CopyBufferToImage(dst: Image)
      requires Valid()
      modifies this
      ensures Valid() && initial == old(initial)
      ensures Abstract() == AfterCopyBuffer(old(Abstract()), dst)
    {
      PrepareDestImage(dst);
      InsertBarrier(false);
      FamiliesNext(initial, queueFamily, commands, Use({}, {}, {dst}));
      commands := commands + [Use({}, {}, {dst})];
      MarkDirty(dst);
    }

    method End()
      requires forall i :: i in textureState ==> !textureState[i].needsImport
      requires Valid()
      modifies this
      ensures Valid() && initial == old(initial)
      ensures Abstract() == AfterInsertBarrier(old(Abstract()), true)
    {
      InsertBarrier(true);
    }

    /** The states go, what the images remember stays. */
    method Reset()
      modifies this
      ensures Valid() && initial == families == old(families)
      ensures Abstract() == Recording(map[], [])
    {
      textureState, commands, initial := map[], [], families;
    }
  }

  // ----- One image as the command stream shows it -----

  datatype History = History(
    hazard: bool,        // some command used the image with a write pending, or threw away contents too late
    touched: bool,       // a barrier or a prepared use mentioned the image
    pendingWrite: bool,  // written, with no barrier flushing the write since
    usedUnacquired: bool,  // a prepared use came before any acquire
    acquires: nat, releases: nat, presents: nat)

  const UNTOUCHED := History(false, false, false, false, 0, 0, 0)

  function Observe(h: History, c: Command, image: Image): History {
    match c
    case Barrier(images) =>
      if image !in images then h
      else
        var b := images[image];
        History(
          h.hazard || (b.oldLayout.Undefined? && h.touched),
          true,
          h.pendingWrite && !(b.flushesWrites && b.makesVisible),
          h.usedUnacquired,
          h.acquires + (if b.source.Foreign? && b.destination.Recorder? then 1 else 0),
          h.releases + (if b.destination.Foreign? then 1 else 0),
          h.presents + (if b.newLayout.Present? then 1 else 0))
    case Use(sources, luts, writes) =>
      h.(hazard := h.hazard || (h.pendingWrite && image in sources + luts + writes),
         touched := h.touched || image in sources + writes,
         pendingWrite := h.pendingWrite || image in writes,
         usedUnacquired := h.usedUnacquired || (h.acquires == 0 && image in sources + writes))
  }

  function HistoryOf(commands: seq<Command>, image: Image): History {
    if commands == [] then UNTOUCHED
    else Observe(HistoryOf(commands[..|commands| - 1], image), commands[|commands| - 1], image)
  }

  // ----- Whole recordings -----

  datatype Op =
    | Dispatch(bound: seq<Option<Image>>, luts: set<Image>, target: Image)
    | CopyImage(src: Image, dst: Image)
    | CopyBufferToImage(dst: Image)
    | DiscardImage(image: Image)

  ghost function Apply(r: Recording, op: Op): Recording {
    match op
    case Dispatch(bound, luts, target) => AfterDispatch(r, bound, luts, target)
    case CopyImage(src, dst) => AfterCopyImage(r, src, dst)
    case CopyBufferToImage(dst) => AfterCopyBuffer(r, dst)
    case DiscardImage(image) => AfterDiscard(r, image)
  }

  ghost function Record(ops: seq<Op>): Recording {
    if ops == [] then Recording(map[], [])
    else Apply(Record(ops[..|ops| - 1]), ops[|ops| - 1])
  }

  /** The finished command stream: everything recorded, then the flush of `end()`. */
  ghost function Finish(ops: seq<Op>): Recording {
    AfterInsertBarrier(Record(ops), true)
  }

  datatype Mention = Source | Destination | Discarded

  ghost function MentionIn(op: Op, image: Image): Option<Mention> {
    match op
    case Dispatch(bound, _, target) =>
      if image in Bound(bound) then Some(Source) else if image == target then Some(Destination) else None
    case CopyImage(src, dst) => if image == src then Some(Source) else if image == dst then Some(Destination) else None
    case CopyBufferToImage(dst) => if image == dst then Some(Destination) else None
    case DiscardImage(i) => if image == i then Some(Discarded) else None
  }

  /** How the image is mentioned first. */
  ghost function FirstMention(ops: seq<Op>, image: Image): Option<Mention> {
    if ops == [] then None
    else
      var earlier := FirstMention(ops[..|ops| - 1], image);
      if earlier.Some? then earlier else MentionIn(ops[|ops| - 1], image)
  }

  ghost function StateOf(r: Recording, image: Image): Option<TextureState> {
    if image in r.states then Some(r.states[image]) else None
  }

  /** The state an image gets when it is first mentioned. */
  ghost function Prepared(m: Mention, image: Image): TextureState {
    match m
    case Source => CLEAN.(needsImport := image.external, needsExport := image.external)
    case Destination => CLEAN.(discarded := true, needsExport := image.external, needsPresentLayout := image.output)
    case Discarded => CLEAN.(discarded := true)
  }

  lemma {:induction false} PreparedSources(r: Recording, bound: seq<Option<Image>>, image: Image)
    ensures AfterPrepareSources(r, bound).commands == r.commands
    ensures StateOf(AfterPrepareSources(r, bound), image) ==
            if image in r.states || image !in Bound(bound) then StateOf(r, image) else Some(Prepared(Source, image))
  {
    if bound != [] {
      var init, last := bound[..|bound| - 1], bound[|bound| - 1];
      PreparedSources(r, init, image);
      assert bound == init + [last];
      assert image in Bound(bound) <==> image in Bound(init) || last == Some(image);
    }
  }

  /** The history after a barrier for the image (if its flags ask for one) and a use. */
  ghost function UsedHistory(h: History, state: Option<TextureState>, use: Command, image: Image): History {
    var settled :=
      if state.Some? && NeedsBarrier(state.value, false)
      then Observe(h, Barrier(map[image := BarrierFor(state.value, false)]), image) else h;
    Observe(settled, use, image)
  }

  ghost function UsedState(state: Option<TextureState>, isTarget: bool): Option<TextureState> {
    if state.Some? then Some(Settled(state.value).(dirty := isTarget)) else None
  }

  lemma UseOfImage(r: Recording, sources: set<Image>, luts: set<Image>, target: Image, image: Image)
    requires target in r.states
    ensures var r' := AfterUse(r, sources, luts, target);
            && HistoryOf(r'.commands, image) ==
               UsedHistory(HistoryOf(r.commands, image), StateOf(r, image), Use(sources, luts, {target}), image)
            && StateOf(r', image) == UsedState(StateOf(r, image), image == target)
  {
    var ready := AfterInsertBarrier(r, false);
    var r' := AfterUse(r, sources, luts, target);
    assert ready.commands[..|ready.commands| - 1] == r.commands;
    assert r'.commands[..|r'.commands| - 1] == ready.commands;
  }

  /** Between two operations the flags of an image say what its history says. */
  ghost predicate Agree(mention: Option<Mention>, state: Option<TextureState>, h: History, image: Image) {
    match mention
    case None => state.None? && h == UNTOUCHED
    case Some(m) =>
      && state.Some?
      && !state.value.needsImport
      && state.value.needsExport == Prepared(m, image).needsExport
      && state.value.needsPresentLayout == Prepared(m, image).needsPresentLayout
      && state.value.dirty == h.pendingWrite
      && (state.value.discarded <==> m.Discarded? && !h.touched)
      && (!h.touched ==> h == UNTOUCHED)
      && !h.hazard
      && h.acquires == (if m.Source? && image.external then 1 else 0)
      && (m.Source? && image.external ==> !h.usedUnacquired)
      && h.releases == 0
      && h.presents == 0
      && (!m.Discarded? ==> h.touched)
  }

  lemma UseKeepsAgreement(m: Mention, state: TextureState, h: History, use: Command, image: Image)
    requires use.Use?
    requires Agree(Some(m), Some(state), h, image) ||
             (h == UNTOUCHED && state == Prepared(m, image) && image in use.sources + use.writes && !m.Discarded?)
    ensures Agree(Some(m), UsedState(Some(state), image in use.writes), UsedHistory(h, Some(state), use, image), image)
  {}

  /** Preparing an image for a use: either it was mentioned before, or it gets the flags of its first mention. */
  lemma UseAgrees(
    ops: seq<Op>, op: Op, r: Recording, sources: set<Image>, luts: set<Image>, target: Image, image: Image)
    requires Agree(FirstMention(ops, image), StateOf(Record(ops), image), HistoryOf(Record(ops).commands, image), image)
    requires r.commands == Record(ops).commands && target in r.states
    requires MentionIn(op, image) ==
             if image in sources then Some(Source) else if image == target then Some(Destination) else None
    requires StateOf(r, image) ==
             if FirstMention(ops, image).Some? || MentionIn(op, image).None? then StateOf(Record(ops), image)
             else Some(Prepared(MentionIn(op, image).value, image))
    requires Record(ops + [op]) == AfterUse(r, sources, luts, target)
    ensures Agrees(ops + [op], image)
  {
    assert (ops + [op])[..|ops|] == ops;
    UseOfImage(r, sources, luts, target, image);
    var m := FirstMention(ops + [op], image);
    if m.Some? {
      UseKeepsAgreement(m.value, StateOf(r, image).value, HistoryOf(r.commands, image), Use(sources, luts, {target}),
                        image);
    }
  }

  ghost predicate Agrees(ops: seq<Op>, image: Image) {
    Agree(FirstMention(ops, image), StateOf(Record(ops), image), HistoryOf(Record(ops).commands, image), image)
  }

  lemma {:induction false} OperationsAgree(ops: seq<Op>, image: Image)
    ensures Agrees(ops, image)
  {
    if ops != [] {
      var init, op := ops[..|ops| - 1], ops[|ops| - 1];
      OperationsAgree(init, image);
      OperationAgrees(init, op, image);
      assert ops == init + [op];
    }
  }

  lemma OperationAgrees(ops: seq<Op>, op: Op, image: Image)
    requires Agrees(ops, image)
    ensures Agrees(ops + [op], image)
  {
    var r := Record(ops);
    assert (ops + [op])[..|ops|] == ops;
    match op {
      case Dispatch(bound, luts, target) =>
        PreparedSources(r, bound, image);
        UseAgrees(ops, op, AfterPrepareDest(AfterPrepareSources(r, bound), target), Bound(bound), luts, target, image);
      case CopyImage(src, dst) =>
        UseAgrees(ops, op, AfterPrepareDest(AfterPrepareSrc(r, src), dst), {src}, {}, dst, image);
      case CopyBufferToImage(dst) =>
        UseAgrees(ops, op, AfterPrepareDest(r, dst), {}, {}, dst, image);
      case DiscardImage(_) =>
    }
  }

  // ----- Reading a history back into the command stream -----

  ghost predicate Mentions(c: Command, image: Image) {
    match c
    case Barrier(images) => image in images
    case Use(sources, _, writes) => image in sources + writes
  }

  ghost predicate Writes(c: Command, image: Image) {
    c.Use? && image in c.writes
  }

  ghost predicate Uses(c: Command, image: Image) {
    c.Use? && image in c.sources + c.luts + c.writes
  }

  /** The barrier makes earlier writes to the image visible to later reads and writes. */
  ghost predicate Flushes(c: Command, image: Image) {
    c.Barrier? && image in c.images && c.images[image].flushesWrites && c.images[image].makesVisible
  }

  ghost predicate Discards(c: Command, image: Image) {
    c.Barrier? && image in c.images && c.images[image].oldLayout.Undefined?
  }

  ghost predicate Acquires(c: Command, image: Image) {
    c.Barrier? && image in c.images && c.images[image].source.Foreign? && c.images[image].destination.Recorder?
  }

  ghost predicate Releases(c: Command, image: Image) {
    c.Barrier? && image in c.images && c.images[image].destination.Foreign?
  }

  ghost predicate Presents(c: Command, image: Image) {
    c.Barrier? && image in c.images && c.images[image].newLayout.Present?
  }

  ghost predicate FlushedBetween(commands: seq<Command>, i: nat, j: nat, image: Image) {
    exists k :: i < k < j && k < |commands| && Flushes(commands[k], image)
  }

  /** The history at command j, extended by the commands from j on, is the history of the whole stream. */
  lemma {:induction false} HistoryGrows(commands: seq<Command>, j: nat, image: Image)
    requires j <= |commands|
    ensures var h, h' := HistoryOf(commands[..j], image), HistoryOf(commands, image);
            && (h.hazard ==> h'.hazard) && (h.touched ==> h'.touched) && (h.usedUnacquired ==> h'.usedUnacquired)
            && h.acquires <= h'.acquires && h.releases <= h'.releases && h.presents <= h'.presents
  {
    if j == |commands| {
      assert commands[..j] == commands;
    } else {
      var init := commands[..|commands| - 1];
      assert init[..j] == commands[..j];
      HistoryGrows(init, j, image);
    }
  }

  /** The step a single command takes within a longer stream. */
  lemma HistoryAt(commands: seq<Command>, j: nat, image: Image)
    requires j < |commands|
    ensures HistoryOf(commands[..j + 1], image) == Observe(HistoryOf(commands[..j], image), commands[j], image)
  {
    assert commands[..j + 1][..j] == commands[..j];
  }

  lemma {:induction false} PendingUntilFlushed(commands: seq<Command>, i: nat, j: nat, image: Image)
    requires i < j <= |commands| && Writes(commands[i], image)
    ensures HistoryOf(commands[..j], image).pendingWrite || FlushedBetween(commands, i, j, image)
    decreases j
  {
    HistoryAt(commands, j - 1, image);
    if i < j - 1 {
      PendingUntilFlushed(commands, i, j - 1, image);
    }
  }

  lemma {:induction false} AcquiredSomewhere(commands: seq<Command>, image: Image) returns (k: nat)
    requires HistoryOf(commands, image).acquires > 0
    ensures k < |commands| && Acquires(commands[k], image)
  {
    k := |commands| - 1;
    if !Acquires(commands[k], image) {
      k := AcquiredSomewhere(commands[..k], image);
    }
  }

  // ----- Main results, for every sequence of operations and every image -----

  /** `end()` may always be called: its assertion that no import is outstanding holds. */
  lemma NoImportAtEnd(ops: seq<Op>)
    ensures forall i :: i in Record(ops).states ==> !Record(ops).states[i].needsImport
  {
    forall i | i in Record(ops).states ensures !Record(ops).states[i].needsImport {
      OperationsAgree(ops, i);
    }
  }

  /** What the finished stream shows of an image whose first mention is m. */
  ghost predicate Kept(m: Option<Mention>, h: History, image: Image) {
    && !h.hazard
    && h.acquires == (if m == Some(Source) && image.external then 1 else 0)
    && (m == Some(Source) && image.external ==> !h.usedUnacquired)
    && h.releases == (if m.Some? && m != Some(Discarded) && image.external then 1 else 0)
    && h.presents == (if m == Some(Destination) && image.output then 1 else 0)
  }

  lemma FlushKeeps(m: Mention, state: TextureState, h: History, image: Image)
    requires Agree(Some(m), Some(state), h, image)
    ensures Kept(Some(m),
                 if NeedsBarrier(state, true) then Observe(h, Barrier(map[image := BarrierFor(state, true)]), image)
                 else h,
                 image)
  {}

  lemma FinishedHistory(ops: seq<Op>, image: Image)
    ensures Kept(FirstMention(ops, image), HistoryOf(Finish(ops).commands, image), image)
  {
    OperationsAgree(ops, image);
    var cs, r := Finish(ops).commands, Record(ops);
    assert cs[..|cs| - 1] == r.commands;
    assert HistoryOf(cs, image) == Observe(HistoryOf(r.commands, image), cs[|cs| - 1], image);
    if image in r.states {
      FlushKeeps(FirstMention(ops, image).value, r.states[image], HistoryOf(r.commands, image), image);
    }
  }

  /** Every write is separated from every later use of the image by a barrier that flushes it. */
  lemma WritesAreFlushedBeforeUse(ops: seq<Op>, image: Image, i: nat, j: nat)
    requires i < j < |Finish(ops).commands|
    requires Writes(Finish(ops).commands[i], image) && Uses(Finish(ops).commands[j], image)
    ensures FlushedBetween(Finish(ops).commands, i, j, image)
  {
    var cs := Finish(ops).commands;
    FinishedHistory(ops, image);
    HistoryGrows(cs, j + 1, image);
    HistoryAt(cs, j, image);
    PendingUntilFlushed(cs, i, j, image);
  }

  /** Whatever was written is flushed by the time the recording ends. */
  lemma WritesAreFlushedAtEnd(ops: seq<Op>, image: Image, i: nat) returns (k: nat)
    requires i < |Finish(ops).commands| && Writes(Finish(ops).commands[i], image)
    ensures i < k < |Finish(ops).commands| && Finish(ops).commands[k].Barrier?
    ensures image in Finish(ops).commands[k].images && Finish(ops).commands[k].images[image].flushesWrites
  {
    var cs := Finish(ops).commands;
    var recorded := Record(ops).commands;
    assert cs[..|cs| - 1] == recorded;
    OperationsAgree(ops, image);
    PendingUntilFlushed(recorded, i, |recorded|, image);
    assert recorded[..|recorded|] == recorded;
    if FlushedBetween(recorded, i, |recorded|, image) {
      k :| i < k < |recorded| && Flushes(recorded[k], image);
      assert cs[k] == recorded[k];
    } else {
      k := |cs| - 1;
    }
  }

  /** A barrier discards an image's contents only if no earlier barrier or prepared use mentioned the image. */
  lemma ContentsAreNeverDiscardedLate(ops: seq<Op>, image: Image, i: nat, j: nat)
    requires i < j < |Finish(ops).commands|
    requires Mentions(Finish(ops).commands[i], image)
    ensures !Discards(Finish(ops).commands[j], image)
  {
    hide Finish, HistoryOf, Prepared;
    var cs := Finish(ops).commands;
    FinishedHistory(ops, image);
    HistoryGrows(cs, j + 1, image);
    HistoryAt(cs, j, image);
    HistoryAt(cs, i, image);
    assert cs[..j][..i + 1] == cs[..i + 1];
    HistoryGrows(cs[..j], i + 1, image);
  }

  /** An external image that is first mentioned as a source is acquired once, before each of its uses. */
  lemma SourcesAreAcquiredBeforeUse(ops: seq<Op>, image: Image, j: nat) returns (k: nat)
    requires image.external && FirstMention(ops, image) == Some(Source)
    requires j < |Finish(ops).commands| && Finish(ops).commands[j].Use? && Mentions(Finish(ops).commands[j], image)
    ensures k < j && Acquires(Finish(ops).commands[k], image)
    ensures HistoryOf(Finish(ops).commands, image).acquires == 1
  {
    var cs := Finish(ops).commands;
    FinishedHistory(ops, image);
    HistoryGrows(cs, j + 1, image);
    HistoryAt(cs, j, image);
    k := AcquiredSomewhere(cs[..j], image);
  }

  /**
    An external image is released by the last command, and by no other, exactly when its first mention prepared
    it as a source or a destination; if the first mention was `discardImage` it is never released. A swapchain
    image goes to its present layout in the last command, and only there, exactly when it was first a destination.
  */
  lemma ReleasedExactlyOnceAtEnd(ops: seq<Op>, image: Image)
    ensures var cs, m := Finish(ops).commands, FirstMention(ops, image);
            && (Releases(cs[|cs| - 1], image) <==> image.external && m.Some? && m != Some(Discarded))
            && (forall k :: 0 <= k < |cs| - 1 ==> !Releases(cs[k], image))
            && (Presents(cs[|cs| - 1], image) <==> image.output && m == Some(Destination))
            && (forall k :: 0 <= k < |cs| - 1 ==> !Presents(cs[k], image))
  {
    var cs := Finish(ops).commands;
    OperationsAgree(ops, image);
    FinishedHistory(ops, image);
    assert cs[..|cs| - 1] == Record(ops).commands;
    forall k | 0 <= k < |cs| - 1 ensures !Releases(cs[k], image) && !Presents(cs[k], image) {
      HistoryAt(cs, k, image);
      assert cs[..|cs| - 1][..k + 1] == cs[..k + 1];
      HistoryGrows(cs[..|cs| - 1], k + 1, image);
    }
  }

  lemma CommandsOfOp(r: Recording, op: Op)
    ensures var cs := Apply(r, op).commands;
            if op.DiscardImage? then cs == r.commands
            else && |cs| == |r.commands| + 2 && cs[..|r.commands|] == r.commands
                 && cs[|r.commands|].Barrier? && cs[|r.commands| + 1].Use?
  {
    if op.Dispatch? {
      PreparedSources(r, op.bound, op.target);
    }
  }

  /** Barriers at the even places, uses at the odd ones. */
  ghost predicate Alternates(cs: seq<Command>) {
    |cs| % 2 == 0 && forall k :: 0 <= k < |cs| ==> (cs[k].Use? <==> k % 2 == 1)
  }

  lemma AlternatesWithTwoMore(before: seq<Command>, cs: seq<Command>)
    requires Alternates(before) && |cs| == |before| + 2 && cs[..|before|] == before
    requires cs[|before|].Barrier? && cs[|before| + 1].Use?
    ensures Alternates(cs)
  {
    forall k | 0 <= k < |cs|
      ensures cs[k].Use? <==> k % 2 == 1
    {
      if k < |before| {
        assert cs[k] == cs[..|before|][k];
      }
    }
  }

  /** Any two dispatches or copies have a pipeline barrier between them, so a write never overtakes a read. */
  lemma {:induction false} UsesAlternateWithBarriers(ops: seq<Op>)
    ensures Alternates(Record(ops).commands)
  {
    hide Apply;
    if ops == [] {
      assert Record(ops).commands == [];
    } else {
      var init, op := ops[..|ops| - 1], ops[|ops| - 1];
      UsesAlternateWithBarriers(init);
      CommandsOfOp(Record(init), op);
      hide Alternates;
      if !op.DiscardImage? {
        AlternatesWithTwoMore(Record(init).commands, Record(ops).commands);
      }
    }
  }

  /** An image that was only discarded and then read is neither acquired nor released, though it is external. */
  lemma DiscardedExternalImageIsNeverReleased()
    ensures var image := Image(0, true, false);
            var h := HistoryOf(Finish([DiscardImage(image), CopyImage(image, Image(1, false, false))]).commands, image);
            h.acquires == 0 && h.releases == 0
  {
    var image := Image(0, true, false);
    var ops := [DiscardImage(image), CopyImage(image, Image(1, false, false))];
    assert ops[..1] == [DiscardImage(image)] && ops[..1][..0] == [];
    assert FirstMention(ops[..1], image) == Some(Discarded);
    FinishedHistory(ops, image);
  }

  // ----- The whole stream, from the operations alone -----

  ghost function BarrierOn(c: Command, image: Image): Option<ImageBarrier> {
    if c.Barrier? && image in c.images then Some(c.images[image]) else None
  }

  /**
    The barrier an image needs ahead of a command, or at the end of the recording: by its history in the stream so
    far and by how it was mentioned first. The first barrier on an image discards its contents unless they are read,
    or takes them over from the other process; a written image is flushed; and at the end an image goes where it
    belongs. No other image gets a barrier.
  */
  ghost function Needed(h: History, mention: Option<Mention>, image: Image, last: bool): Option<ImageBarrier> {
    var discards := !h.touched && mention.Some? && mention != Some(Source);
    var acquires := !h.touched && mention == Some(Source) && image.external;
    var releases := last && mention.Some? && mention != Some(Discarded) && image.external;
    var presents := last && mention == Some(Destination) && image.output;
    if !discards && !acquires && !h.pendingWrite && !releases && !presents then None
    else Some(ImageBarrier(
      h.pendingWrite,
      !last,
      if discards then Undefined else General,
      if presents then Present else General,
      if acquires then Foreign else Remembered,
      if releases then Foreign else Queue.Recorder))
  }

  /** What an operation reads and writes. */
  ghost function UseOf(op: Op): Command
    requires !op.DiscardImage?
  {
    match op
    case Dispatch(bound, luts, target) => Use(Bound(bound), luts, {target})
    case CopyImage(src, dst) => Use({src}, {}, {dst})
    case CopyBufferToImage(dst) => Use({}, {}, {dst})
  }

  lemma FlagsAreNeeded(m: Option<Mention>, state: Option<TextureState>, h: History, image: Image, last: bool)
    requires Agree(m, state, h, image) ||
             (!last && m.Some? && !m.value.Discarded? && h == UNTOUCHED && state == Some(Prepared(m.value, image)))
    ensures Needed(h, m, image, last) ==
            if state.Some? && NeedsBarrier(state.value, last) then Some(BarrierFor(state.value, last)) else None
  {}

  /** What each operation adds to the stream: nothing for a discard, else the barriers needed and then the use. */
  lemma OperationRecords(ops: seq<Op>, op: Op, image: Image)
    ensures var before, after := Record(ops).commands, Record(ops + [op]).commands;
            if op.DiscardImage? then after == before
            else
              && |after| == |before| + 2 && after[..|before|] == before && after[|before| + 1] == UseOf(op)
              && after[|before|].Barrier?
              && BarrierOn(after[|before|], image) ==
                   Needed(HistoryOf(before, image), FirstMention(ops + [op], image), image, false)
  {
    hide HistoryOf, Needed, AfterInsertBarrier;
    var r := Record(ops);
    assert (ops + [op])[..|ops|] == ops;
    OperationsAgree(ops, image);
    match op {
      case Dispatch(bound, luts, target) =>
        PreparedSources(r, bound, image);
        UseRecords(ops, op, AfterPrepareDest(AfterPrepareSources(r, bound), target), Bound(bound), luts, target, image);
      case CopyImage(src, dst) =>
        UseRecords(ops, op, AfterPrepareDest(AfterPrepareSrc(r, src), dst), {src}, {}, dst, image);
      case CopyBufferToImage(dst) =>
        UseRecords(ops, op, AfterPrepareDest(r, dst), {}, {}, dst, image);
      case DiscardImage(_) =>
    }
  }

  lemma BoundIs(bound: seq<Option<Image>>, image: Image)
    ensures image in Bound(bound) <==> Some(image) in bound
  {}

  lemma UseRecords(
    ops: seq<Op>, op: Op, r: Recording, sources: set<Image>, luts: set<Image>, target: Image, image: Image)
    requires Agrees(ops, image) && r.commands == Record(ops).commands && target in r.states
    requires MentionIn(op, image) ==
             if image in sources then Some(Source) else if image == target then Some(Destination) else None
    requires StateOf(r, image) ==
             if FirstMention(ops, image).Some? || MentionIn(op, image).None? then StateOf(Record(ops), image)
             else Some(Prepared(MentionIn(op, image).value, image))
    ensures var before, after := r.commands, AfterUse(r, sources, luts, target).commands;
            && |after| == |before| + 2 && after[..|before|] == before
            && after[|before|].Barrier? && after[|before| + 1] == Use(sources, luts, {target})
            && BarrierOn(after[|before|], image) ==
                 Needed(HistoryOf(before, image), FirstMention(ops + [op], image), image, false)
  {
    hide HistoryOf, NeedsBarrier, BarrierFor, Needed, Settled;
    assert (ops + [op])[..|ops|] == ops;
    var m := FirstMention(ops + [op], image);
    assert FirstMention(ops, image).None? ==> HistoryOf(r.commands, image) == UNTOUCHED;
    FlagsAreNeeded(m, StateOf(r, image), HistoryOf(r.commands, image), image, false);
  }

  /** And what `end` adds: one more barrier command, with the barriers needed at the end. */
  lemma EndRecords(ops: seq<Op>, image: Image)
    ensures var before, after := Record(ops).commands, Finish(ops).commands;
            && |after| == |before| + 1 && after[..|before|] == before && after[|before|].Barrier?
            && BarrierOn(after[|before|], image) ==
                 Needed(HistoryOf(before, image), FirstMention(ops, image), image, true)
  {
    hide HistoryOf, NeedsBarrier, BarrierFor, Needed, Agree, Settled;
    OperationsAgree(ops, image);
    FlagsAreNeeded(FirstMention(ops, image), StateOf(Record(ops), image), HistoryOf(Record(ops).commands, image), image,
                   true);
  }

  /** No command before j mentions the image. */
  ghost predicate UnmentionedBefore(cs: seq<Command>, j: nat, image: Image)
    requires j <= |cs|
  {
    forall i :: 0 <= i < j ==> !Mentions(cs[i], image)
  }

  lemma {:induction false} UntouchedIff(cs: seq<Command>, image: Image)
    ensures HistoryOf(cs, image).touched <==> !UnmentionedBefore(cs, |cs|, image)
  {
    if cs != [] {
      var front := cs[..|cs| - 1];
      UntouchedIff(front, image);
      assert forall i :: 0 <= i < |front| ==> cs[i] == front[i];
    }
  }

  lemma NeededDiscards(h: History, m: Option<Mention>, image: Image, last: bool)
    ensures var b := Needed(h, m, image, last);
            && (b.Some? && b.value.oldLayout.Undefined? <==> !h.touched && m.Some? && m != Some(Source))
            && (h == UNTOUCHED && m.None? ==> b.None?)
  {}

  lemma {:induction false} RecordedDiscardsIff(ops: seq<Op>, image: Image, j: nat)
    requires j < |Record(ops).commands|
    ensures Discards(Record(ops).commands[j], image) <==>
            && UnmentionedBefore(Record(ops).commands, j, image) && Mentions(Record(ops).commands[j], image)
            && FirstMention(ops, image) != Some(Source)
  {
    hide HistoryOf, Needed, Apply;
    assert ops != [];
    var init, op := ops[..|ops| - 1], ops[|ops| - 1];
    var before, cs, m := Record(init).commands, Record(ops).commands, FirstMention(ops, image);
    assert ops == init + [op];
    OperationRecords(init, op, image);
    OperationsAgree(init, image);
    UntouchedIff(before, image);
    NeededDiscards(HistoryOf(before, image), m, image, false);
    hide Record, StateOf, Prepared;
    assert forall i :: 0 <= i < |before| ==> cs[i] == before[i];
    if j < |before| {
      RecordedDiscardsIff(init, image, j);
    } else if j > |before| {
      assert MentionIn(op, image).None? ==> !Mentions(cs[j], image) by { UseMentions(op, image); }
    }
  }

  lemma UseMentions(op: Op, image: Image)
    requires !op.DiscardImage?
    ensures Mentions(UseOf(op), image) <==> MentionIn(op, image).Some?
  {}

  /**
    In the finished stream the first command that mentions an image discards its contents exactly when the image was
    first mentioned as a destination or discarded, and no other command does. An image read first keeps them.
  */
  lemma FirstBarrierDiscardsIff(ops: seq<Op>, image: Image, j: nat)
    requires j < |Finish(ops).commands|
    ensures Discards(Finish(ops).commands[j], image) <==>
            && UnmentionedBefore(Finish(ops).commands, j, image) && Mentions(Finish(ops).commands[j], image)
            && FirstMention(ops, image) != Some(Source)
  {
    hide HistoryOf, Needed, Record, Finish;
    EndRecords(ops, image);
    var before, after := Record(ops).commands, Finish(ops).commands;
    assert forall i :: 0 <= i < |before| ==> after[i] == before[i];
    if j < |before| {
      RecordedDiscardsIff(ops, image, j);
    } else {
      OperationsAgree(ops, image);
      UntouchedIff(before, image);
      NeededDiscards(HistoryOf(before, image), FirstMention(ops, image), image, true);
    }
  }

  // ----- Queue families -----

  /** An image keeps the family it remembers, and remembers one from the first barrier on it. */
  lemma {:induction false} FamilyIsTheFirst(
    families: map<Image, nat>, family: nat, commands: seq<Command>, image: Image)
    ensures var after := Families(families, family, commands);
            && (image in after <==> image in families || exists i ::
                  0 <= i < |commands| && commands[i].Barrier? && image in commands[i].images)
            && (image in after ==> after[image] == if image in families then families[image] else family)
    decreases |commands|
  {
    if commands != [] {
      var most := commands[..|commands| - 1];
      FamilyIsTheFirst(families, family, most, image);
      assert forall i :: 0 <= i < |most| ==> commands[i] == most[i];
      if i :| 0 <= i < |most| && most[i].Barrier? && image in most[i].images {
        assert commands[i].Barrier? && image in commands[i].images;
      }
    }
  }

  /** The source of barrier k for an image that is not acquired there. */
  ghost function SourceFamily(
    families: map<Image, nat>, family: nat, commands: seq<Command>, k: nat, image: Image): nat
    requires k < |commands| && commands[k].Barrier? && image in commands[k].images
  {
    FamilyIsTheFirst(families, family, commands[..k + 1], image);
    assert commands[..k + 1][k] == commands[k];
    Families(families, family, commands[..k + 1])[image]
  }

  /**
    A barrier stays within the recorder's own family exactly when no recorder of another family had a barrier on the
    image before. Otherwise each barrier names that first family as its source again.
  */
  lemma SourceIsOwnFamilyIff(families: map<Image, nat>, family: nat, commands: seq<Command>, k: nat, image: Image)
    requires k < |commands| && commands[k].Barrier? && image in commands[k].images
    ensures SourceFamily(families, family, commands, k, image) == family <==>
            image !in families || families[image] == family
    ensures image in families ==> SourceFamily(families, family, commands, k, image) == families[image]
  {
    FamilyIsTheFirst(families, family, commands[..k + 1], image);
  }
}
