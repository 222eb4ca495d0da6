/**
  Lifetime of a framebuffer shared by textures (src/backend.cpp, CVulkanTexture in src/rendervulkan.cpp): the
  public references of a texture hold one public reference on its framebuffer, the public references of the
  framebuffer hold one lock on the client's buffer, and ownership runs through private references beside them.
*/
module FbLocks {
  import opened Options

  type BufferId = nat
  type TextureId = nat
  type ReleasePoint = nat

  // ----- One framebuffer -----

  datatype Fb = Fb(
    refCount: nat,
    refPrivate: nat,
    deleted: bool,
    clientBuffer: Option<BufferId>,
    releasePoint: Option<ReleasePoint>,
    locked: multiset<BufferId>,      // the wlr_buffer locks it has taken and not given back
    released: seq<ReleasePoint>)     // the explicit-sync points it has let go of, oldest first

  function Locks(fb: Fb, buffer: Option<BufferId>): Fb {
    if buffer.Some? then fb.(locked := fb.locked + multiset{buffer.value}) else fb
  }

  function Unlocks(fb: Fb, buffer: Option<BufferId>): Fb
    requires buffer.Some? ==> buffer.value in fb.locked  // wlroots asserts that the buffer is locked
  {
    if buffer.Some? then fb.(locked := fb.locked - multiset{buffer.value}) else fb
  }

  function LetGo(fb: Fb): Fb {
    fb.(releasePoint := None,
        released := if fb.releasePoint.Some? then fb.released + [fb.releasePoint.value] else fb.released)
  }

  function AfterDecPrivate(fb: Fb): Fb
    requires !fb.deleted && fb.refPrivate > 0
  {
    if fb.refPrivate > 1 then fb.(refPrivate := fb.refPrivate - 1)
    else LetGo(fb.(refPrivate := 0, deleted := true))
  }

  function AfterIncRef(fb: Fb): Fb
    requires !fb.deleted
  {
    var counted := fb.(refCount := fb.refCount + 1);
    if fb.refCount == 0 then Locks(counted.(refPrivate := fb.refPrivate + 1), fb.clientBuffer) else counted
  }

  /** Nothing below 1 is ever dropped, and the last public reference leaves a lock to give back. */
  ghost predicate MayDecRef(fb: Fb) {
    && !fb.deleted && fb.refCount > 0 && fb.refPrivate > 0
    && (fb.refCount == 1 && fb.clientBuffer.Some? ==> fb.clientBuffer.value in fb.locked)
  }

  function AfterDecRef(fb: Fb): Fb
    requires MayDecRef(fb)
  {
    var counted := fb.(refCount := fb.refCount - 1);
    if fb.refCount > 1 then counted else Unlocks(AfterDecPrivate(LetGo(counted)), fb.clientBuffer)
  }

  function AfterSetBuffer(fb: Fb, buffer: BufferId): Fb
    requires fb.clientBuffer.None? || fb.clientBuffer == Some(buffer)  // the original's assertion
  {
    if fb.clientBuffer == Some(buffer) then fb
    else
      var updated := LetGo(fb.(clientBuffer := Some(buffer)));
      if fb.refCount > 0 then Locks(updated, Some(buffer)) else updated
  }

  ghost predicate MaySetReleasePoint(fb: Fb) {
    fb.clientBuffer.Some? && fb.refCount > 0 ==> fb.clientBuffer.value in fb.locked
  }

  function AfterSetReleasePoint(fb: Fb, point: ReleasePoint): Fb
    requires MaySetReleasePoint(fb)
  {
    var updated := LetGo(fb).(releasePoint := Some(point));
    if fb.clientBuffer.None? || fb.refCount == 0 then updated
    else updated.(clientBuffer := None, locked := fb.locked - multiset{fb.clientBuffer.value})
  }

  class Framebuffer {
    var refCount: nat
    var refPrivate: nat
    var deleted: bool
    var clientBuffer: Option<BufferId>
    var releasePoint: Option<ReleasePoint>
    ghost var locked: multiset<BufferId>
    ghost var released: seq<ReleasePoint>

    ghost function Abstract(): Fb
      reads this
    {
      Fb(refCount, refPrivate, deleted, clientBuffer, releasePoint, locked, released)
    }

    /** RcObject::DecRefPrivate; the bias it adds before `delete this` is the business of module RefCount. */
    method DecRefPrivate()
      requires !deleted && refPrivate > 0
      modifies this
      ensures Abstract() == AfterDecPrivate(old(Abstract()))
    {
      refPrivate := refPrivate - 1;
      if refPrivate == 0 {
        deleted := true;
        released := if releasePoint.Some? then released + [releasePoint.value] else released;
        releasePoint := None;
      }
    }

    method IncRef() returns (before: nat)
      requires !deleted
      modifies this
      ensures before == old(refCount) && Abstract() == AfterIncRef(old(Abstract()))
    {
      before := refCount;
      refCount := refCount + 1;
      if before == 0 {
        refPrivate := refPrivate + 1;
      }
      if clientBuffer.Some? && before == 0 {
        locked := locked + multiset{clientBuffer.value};
      }
    }

    method DecRef() returns (left: nat)
      requires MayDecRef(Abstract())
      modifies this
      ensures left == old(refCount) - 1 && Abstract() == AfterDecRef(old(Abstract()))
    {
      var buffer := clientBuffer;
      var point := releasePoint;
      releasePoint := None;
      refCount := refCount - 1;
      left := refCount;
      if left == 0 {
        DecRefPrivate();
      }
      if left > 0 {
        if point.Some? {
          releasePoint := point;
        }
      } else {
        if buffer.Some? {
          locked := locked - multiset{buffer.value};
        }
        released := if point.Some? then released + [point.value] else released;  // the local goes out of scope
      }
    }

    method SetBuffer(buffer: BufferId)
      requires clientBuffer.None? || clientBuffer == Some(buffer)
      modifies this
      ensures Abstract() == AfterSetBuffer(old(Abstract()), buffer)
    {
      if clientBuffer == Some(buffer) {
        return;
      }
      assert clientBuffer.None?;
      clientBuffer := Some(buffer);
      if refCount > 0 {
        locked := locked + multiset{buffer};
      }
      released := if releasePoint.Some? then released + [releasePoint.value] else released;
      releasePoint := None;
    }

    method SetReleasePoint(point: ReleasePoint)
      requires MaySetReleasePoint(Abstract())
      modifies this
      ensures Abstract() == AfterSetReleasePoint(old(Abstract()), point)
    {
      released := if releasePoint.Some? then released + [releasePoint.value] else released;
      releasePoint := Some(point);
      if clientBuffer.Some? && refCount > 0 {
        ghost var buffer := clientBuffer.value;
        clientBuffer := None;
        locked := locked - multiset{buffer};
        assert locked == AfterSetReleasePoint(old(Abstract()), point).locked;
      }
    }
  }

  // ----- A texture in front of it -----

  datatype Texture = Texture(refCount: nat, refPrivate: nat, deleted: bool, attached: bool)

  function TextureAfterDecPrivate(t: Texture): Texture
    requires !t.deleted && t.refPrivate > 0
  {
    t.(refPrivate := t.refPrivate - 1, deleted := t.refPrivate == 1)
  }

  /** Dropping a private reference; a dying texture drops its private reference on the framebuffer. */
  function AfterTextureDecPrivate(t: Texture, fb: Fb): (Texture, Fb)
    requires !t.deleted && t.refPrivate > 0
    requires t.attached && t.refPrivate == 1 ==> !fb.deleted && fb.refPrivate > 0
  {
    (TextureAfterDecPrivate(t), if t.attached && t.refPrivate == 1 then AfterDecPrivate(fb) else fb)
  }

  function AfterTextureIncRef(t: Texture, fb: Fb): (Texture, Fb)
    requires !t.deleted && (t.attached ==> !fb.deleted)
  {
    if t.refCount > 0 then (t.(refCount := t.refCount + 1), fb)
    else (t.(refCount := 1, refPrivate := t.refPrivate + 1), if t.attached then AfterIncRef(fb) else fb)
  }

  /** The framebuffer must outlive the texture's own death for the forwarded DecRef to be safe. */
  ghost predicate MayTextureDecRef(t: Texture, fb: Fb) {
    && !t.deleted && t.refCount > 0 && t.refPrivate > 0
    && (t.refCount == 1 && t.attached ==>
          && !fb.deleted && fb.refPrivate > 0
          && MayDecRef(if t.refPrivate == 1 then AfterDecPrivate(fb) else fb))
  }

  function AfterTextureDecRef(t: Texture, fb: Fb): (Texture, Fb)
    requires MayTextureDecRef(t, fb)
  {
    var counted := t.(refCount := t.refCount - 1);
    if t.refCount > 1 then (counted, fb)
    else
      var (t1, fb1) := AfterTextureDecPrivate(counted, fb);
      (t1, if t.attached then AfterDecRef(fb1) else fb1)
  }

  class VulkanTexture {
    var refCount: nat
    var refPrivate: nat
    var deleted: bool
    var backendFb: Framebuffer?

    ghost function Abstract(): Texture
      reads this
    {
      Texture(refCount, refPrivate, deleted, backendFb != null)
    }

    method IncRef() returns (before: nat)
      requires !deleted && (backendFb != null ==> !backendFb.deleted)
      modifies this, backendFb
      ensures before == old(refCount) && backendFb == old(backendFb)
      ensures backendFb == null ==>
                && !old(Abstract()).attached
                && Abstract() == AfterTextureIncRef(old(Abstract()), Fb(0, 0, false, None, None, multiset{}, [])).0
      ensures backendFb != null ==>
                (Abstract(), backendFb.Abstract()) == AfterTextureIncRef(old(Abstract()), old(backendFb.Abstract()))
    {
      before := refCount;
      refCount := refCount + 1;
      if before == 0 {
        refPrivate := refPrivate + 1;
      }
      if backendFb != null && before == 0 {
        var _ := backendFb.IncRef();
      }
    }

    /** The pointer is read before the count is dropped, because the texture may be destroyed on the way. */
    method DecRef() returns (left: nat)
      requires backendFb != null ==> MayTextureDecRef(Abstract(), backendFb.Abstract())
      requires backendFb == null ==> !deleted && refCount > 0 && refPrivate > 0
      modifies this, backendFb
      ensures left == old(refCount) - 1 && refCount == left
      ensures old(backendFb) != null ==>
                ((Texture(refCount, refPrivate, deleted, true), old(backendFb).Abstract()) ==
                 AfterTextureDecRef(old(Abstract()), old(backendFb.Abstract())))
      ensures old(backendFb) == null ==>
                && refPrivate == old(refPrivate) - (if left == 0 then 1 else 0)
                && (deleted <==> left == 0 && refPrivate == 0)
    {
      var fb := backendFb;
      refCount := refCount - 1;
      left := refCount;
      if left == 0 {
        refPrivate := refPrivate - 1;
        if refPrivate == 0 {
          deleted := true;
          if backendFb != null {  // the destructor
            backendFb.DecRefPrivate();
            backendFb := null;
          }
        }
      }
      if fb != null && left == 0 {
        var _ := fb.DecRef();
      }
    }
  }

  // ----- A framebuffer with any number of textures and direct handles -----

  datatype System = System(fb: Fb, direct: nat, directPrivate: nat, textures: map<TextureId, Texture>)

  datatype Event =
    | FbIncRef | FbDecRef | FbIncRefPrivate | FbDecRefPrivate
    | SetBuffer(buffer: BufferId) | SetReleasePoint(point: ReleasePoint)
    | NewTexture(id: TextureId)
    | Attach(id: TextureId)
    | TextureIncRef(id: TextureId) | TextureDecRef(id: TextureId)
    | TextureIncRefPrivate(id: TextureId) | TextureDecRefPrivate(id: TextureId)

  /** The creator of the framebuffer holds the first private reference. */
  const START := System(Fb(0, 1, false, None, None, multiset{}, []), 0, 1, map[])

  /** Private references to a texture that are handles, not the one its public count holds. */
  function TextureHandles(t: Texture): int {
    t.refPrivate - (if t.refCount > 0 then 1 else 0)
  }

  /** The live textures that own the framebuffer, and those of them that are publicly referenced. */
  ghost function Owners(s: System): set<TextureId> {
    set t | t in s.textures && s.textures[t].attached && !s.textures[t].deleted
  }

  ghost function Users(s: System): set<TextureId> {
    set t | t in s.textures && s.textures[t].attached && !s.textures[t].deleted && s.textures[t].refCount > 0
  }

  /** Somebody has a reference to copy: a handle, or a live texture in front of the framebuffer. */
  ghost predicate Reachable(s: System) {
    s.direct > 0 || s.directPrivate > 0 || Owners(s) != {}
  }

  /** The attaching code hands over a reference that exists. */
  ghost predicate MayAttach(s: System, id: TextureId) {
    id in s.textures && !s.textures[id].deleted && !s.textures[id].attached && Reachable(s)
  }

  /**
    Only references that exist are dropped or copied, also those of textures in front of it, and a framebuffer is
    attached before the texture is shared.
  */
  ghost predicate Enabled(s: System, e: Event) {
    match e
    case FbIncRef => Reachable(s)
    case FbDecRef => s.direct > 0
    case FbIncRefPrivate => Reachable(s)
    case FbDecRefPrivate => s.directPrivate > 0
    case SetBuffer(b) => !s.fb.deleted && (s.fb.clientBuffer.None? || s.fb.clientBuffer == Some(b))
    case SetReleasePoint(_) => !s.fb.deleted
    case NewTexture(id) => id !in s.textures
    case Attach(id) =>
      MayAttach(s, id) && s.textures[id].refCount == 0
    case TextureIncRef(id) => id in s.textures && !s.textures[id].deleted
    case TextureDecRef(id) => id in s.textures && !s.textures[id].deleted && s.textures[id].refCount > 0
    case TextureIncRefPrivate(id) => id in s.textures && !s.textures[id].deleted
    case TextureDecRefPrivate(id) => id in s.textures && !s.textures[id].deleted && TextureHandles(s.textures[id]) > 0
  }

  ghost predicate Inv(s: System) {
    && s.fb.refCount == s.direct + |Users(s)|
    && s.fb.refPrivate == s.directPrivate + |Owners(s)| + (if s.fb.refCount > 0 then 1 else 0)
    && (s.fb.deleted <==> s.fb.refPrivate == 0)
    && s.fb.locked ==
         (if s.fb.refCount > 0 && s.fb.clientBuffer.Some? then multiset{s.fb.clientBuffer.value} else multiset{})
    && forall t :: t in s.textures ==>
         (s.textures[t].deleted <==> s.textures[t].refPrivate == 0) && TextureHandles(s.textures[t]) >= 0
  }

  lemma OwnersKeepFbAlive(s: System, id: TextureId)
    requires Inv(s) && id in Owners(s)
    ensures !s.fb.deleted && s.fb.refPrivate > 0
    ensures id in Users(s) ==> s.fb.refPrivate >= 2 && s.fb.refCount > 0
  {
    assert |Owners(s) - {id}| == |Owners(s)| - 1;
    if id in Users(s) {
      assert |Users(s) - {id}| == |Users(s)| - 1;
    }
  }

  /** The framebuffer is alive when a dying texture forwards its last DecRef: no step touches a freed object. */
  lemma TextureDecRefIsSafe(s: System, id: TextureId)
    requires Inv(s) && Enabled(s, TextureDecRef(id))
    ensures MayTextureDecRef(s.textures[id], s.fb)
  {
    if s.textures[id].attached {
      assert id in Users(s) && id in Owners(s);
      OwnersKeepFbAlive(s, id);
    }
  }

  lemma TextureStepIsSafe(s: System, id: TextureId)
    requires Inv(s) && id in s.textures && !s.textures[id].deleted
    ensures s.textures[id].refPrivate > 0
    ensures s.textures[id].attached ==> !s.fb.deleted && s.fb.refPrivate > 0
  {
    if s.textures[id].attached {
      assert id in Owners(s);
      OwnersKeepFbAlive(s, id);
    }
  }

  ghost function Put(s: System, id: TextureId, pair: (Texture, Fb)): System {
    s.(textures := s.textures[id := pair.0], fb := pair.1)
  }

  ghost function Attached(s: System, id: TextureId): System
    requires id in s.textures
  {
    Put(s, id, (s.textures[id].(attached := true), s.fb.(refPrivate := s.fb.refPrivate + 1)))
  }

  /** No freed object is touched, no counter goes below 0, and only a locked buffer is unlocked. */
  ghost predicate Safe(s: System, e: Event)
    requires Enabled(s, e)
  {
    match e
    case FbIncRef => !s.fb.deleted
    case FbDecRef => MayDecRef(s.fb)
    case FbIncRefPrivate => !s.fb.deleted
    case FbDecRefPrivate => !s.fb.deleted && s.fb.refPrivate > 0
    case SetBuffer(_) => true
    case SetReleasePoint(_) => MaySetReleasePoint(s.fb)
    case NewTexture(_) => true
    case Attach(_) => !s.fb.deleted
    case TextureIncRef(id) => s.textures[id].attached ==> !s.fb.deleted
    case TextureDecRef(id) => MayTextureDecRef(s.textures[id], s.fb)
    case TextureIncRefPrivate(_) => true
    case TextureDecRefPrivate(id) =>
      s.textures[id].refPrivate > 0 && (s.textures[id].attached ==> !s.fb.deleted && s.fb.refPrivate > 0)
  }

  ghost function Apply(s: System, e: Event): System
    requires Enabled(s, e) && Safe(s, e)
  {
    match e
    case FbIncRef => s.(fb := AfterIncRef(s.fb), direct := s.direct + 1)
    case FbDecRef => s.(fb := AfterDecRef(s.fb), direct := s.direct - 1)
    case FbIncRefPrivate => s.(fb := s.fb.(refPrivate := s.fb.refPrivate + 1), directPrivate := s.directPrivate + 1)
    case FbDecRefPrivate => s.(fb := AfterDecPrivate(s.fb), directPrivate := s.directPrivate - 1)
    case SetBuffer(b) => s.(fb := AfterSetBuffer(s.fb, b))
    case SetReleasePoint(p) => s.(fb := AfterSetReleasePoint(s.fb, p))
    case NewTexture(id) => s.(textures := s.textures[id := Texture(0, 1, false, false)])
    case Attach(id) => Attached(s, id)
    case TextureIncRef(id) => Put(s, id, AfterTextureIncRef(s.textures[id], s.fb))
    case TextureDecRef(id) => Put(s, id, AfterTextureDecRef(s.textures[id], s.fb))
    case TextureIncRefPrivate(id) =>
      Put(s, id, (s.textures[id].(refPrivate := s.textures[id].refPrivate + 1), s.fb))
    case TextureDecRefPrivate(id) => Put(s, id, AfterTextureDecPrivate(s.textures[id], s.fb))
  }

  lemma EveryEventIsSafe(s: System, e: Event)
    requires Inv(s) && Enabled(s, e)
    ensures Safe(s, e)
  {
    match e {
      case TextureIncRef(id) => TextureStepIsSafe(s, id);
      case TextureDecRef(id) => TextureDecRefIsSafe(s, id);
      case TextureDecRefPrivate(id) => TextureStepIsSafe(s, id);
      case _ =>
    }
  }

  // ----- What every event keeps -----

  lemma Resized<T>(before: set<T>, after: set<T>, x: T)
    requires forall y :: y != x ==> (y in after <==> y in before)
    ensures |after| == |before| - (if x in before then 1 else 0) + (if x in after then 1 else 0)
  {
    assert after - {x} == before - {x};
    assert |before - {x}| == |before| - (if x in before then 1 else 0);
    assert |after - {x}| == |after| - (if x in after then 1 else 0);
  }

  /** How replacing one texture changes the two sets that are counted. */
  lemma Replaced(s: System, id: TextureId, t: Texture)
    requires id in s.textures
    ensures var s' := s.(textures := s.textures[id := t]);
            var owns := t.attached && !t.deleted;
            && |Owners(s')| == |Owners(s)| - (if id in Owners(s) then 1 else 0) + (if owns then 1 else 0)
            && |Users(s')| == |Users(s)| - (if id in Users(s) then 1 else 0) + (if owns && t.refCount > 0 then 1 else 0)
  {
    var s' := s.(textures := s.textures[id := t]);
    Resized(Owners(s), Owners(s'), id);
    Resized(Users(s), Users(s'), id);
  }

  lemma Unchanged(s: System, s': System)
    requires s.textures == s'.textures
    ensures Owners(s) == Owners(s') && Users(s) == Users(s')
  {}

  lemma FbTakeKeepsInv(s: System, e: Event)
    requires Inv(s) && Enabled(s, e) && Safe(s, e) && (e.FbIncRef? || e.FbIncRefPrivate?)
    ensures Inv(Apply(s, e))
  {
    Unchanged(s, Apply(s, e));
    assert Owners(s) != {} ==> |Owners(s)| > 0;
    hide Owners, Users;
  }

  lemma FbDecRefKeepsInv(s: System)
    requires Inv(s) && Enabled(s, FbDecRef) && Safe(s, FbDecRef)
    ensures Inv(Apply(s, FbDecRef))
  {
    Unchanged(s, Apply(s, FbDecRef));
    hide Owners, Users;
  }

  lemma FbDecRefPrivateKeepsInv(s: System)
    requires Inv(s) && Enabled(s, FbDecRefPrivate) && Safe(s, FbDecRefPrivate)
    ensures Inv(Apply(s, FbDecRefPrivate))
  {
    Unchanged(s, Apply(s, FbDecRefPrivate));
    hide Owners, Users;
  }

  lemma FbBufferKeepsInv(s: System, e: Event)
    requires Inv(s) && Enabled(s, e) && Safe(s, e)
    requires e.SetBuffer? || e.SetReleasePoint?
    ensures Inv(Apply(s, e))
  {
    Unchanged(s, Apply(s, e));
  }

  lemma TextureStepKeepsInv(s: System, e: Event)
    requires Inv(s) && Enabled(s, e) && Safe(s, e)
    requires e.Attach? || e.TextureIncRef? || e.TextureIncRefPrivate? || e.TextureDecRefPrivate?
    ensures Inv(Apply(s, e))
  {
    var s' := Apply(s, e);
    TextureStepIsSafe(s, e.id);
    Replaced(s, e.id, s'.textures[e.id]);
    Unchanged(s.(textures := s'.textures), s');
  }

  /** A release point is let go, once, when `ends`, and `next` is there instead; otherwise it stays. */
  ghost predicate PointFollows(fb: Fb, fb': Fb, ends: bool, next: Option<ReleasePoint>) {
    if ends then
      && fb'.releasePoint == next
      && fb'.released == fb.released + (if fb.releasePoint.Some? then [fb.releasePoint.value] else [])
    else fb'.released == fb.released && fb'.releasePoint == fb.releasePoint
  }

  ghost predicate DropsOne(fb: Fb, fb': Fb, privates: nat) {
    && fb'.refCount == fb.refCount - 1
    && fb'.refPrivate == fb.refPrivate - privates - (if fb.refCount == 1 then 1 else 0)
    && (fb'.deleted <==> fb'.refPrivate == 0) && fb'.clientBuffer == fb.clientBuffer
    && (fb'.locked ==
        if fb.refCount == 1 && fb.clientBuffer.Some? then fb.locked - multiset{fb.clientBuffer.value} else fb.locked)
    && PointFollows(fb, fb', fb.refCount == 1, None)
  }

  lemma DecRefIs(fb: Fb)
    requires MayDecRef(fb)
    ensures DropsOne(fb, AfterDecRef(fb), 0)
  {}

  /** The last reference to a texture in front of the framebuffer drops one of it, and one more with the texture. */
  lemma TextureDecRefIs(t: Texture, fb: Fb)
    requires MayTextureDecRef(t, fb)
    ensures var (t', fb') := AfterTextureDecRef(t, fb);
            && t'.refCount == t.refCount - 1 && t'.refPrivate == t.refPrivate - (if t.refCount == 1 then 1 else 0)
            && (t'.deleted <==> t'.refPrivate == 0) && t'.attached == t.attached
            && if t.refCount == 1 && t.attached then DropsOne(fb, fb', if t.refPrivate == 1 then 1 else 0)
               else fb' == fb
  {
    if t.refCount == 1 && t.attached {
      DecRefIs(if t.refPrivate == 1 then AfterDecPrivate(fb) else fb);
    }
    hide AfterDecRef;
  }

  lemma TextureDecRefKeepsInv(s: System, id: TextureId)
    requires Inv(s) && Enabled(s, TextureDecRef(id)) && Safe(s, TextureDecRef(id))
    ensures Inv(Apply(s, TextureDecRef(id)))
  {
    hide AfterTextureDecRef, PointFollows;
    var s' := Apply(s, TextureDecRef(id));
    TextureDecRefIs(s.textures[id], s.fb);
    hide MayTextureDecRef;
    Replaced(s, id, s'.textures[id]);
    Unchanged(s.(textures := s'.textures), s');
    var t := s.textures[id];
    assert id in Owners(s) <==> t.attached && !t.deleted;
    assert id in Users(s) <==> t.attached && !t.deleted && t.refCount > 0;
    hide Owners, Users;
  }

  lemma NewTextureKeepsInv(s: System, id: TextureId)
    requires Inv(s) && id !in s.textures
    ensures Inv(Apply(s, NewTexture(id)))
  {
    var s' := Apply(s, NewTexture(id));
    assert Owners(s') == Owners(s) && Users(s') == Users(s);
  }

  lemma StepKeepsInv(s: System, e: Event)
    requires Inv(s) && Enabled(s, e) && Safe(s, e)
    ensures Inv(Apply(s, e))
  {
    match e {
      case NewTexture(id) => NewTextureKeepsInv(s, id);
      case TextureDecRef(id) => TextureDecRefKeepsInv(s, id);
      case Attach(_) => TextureStepKeepsInv(s, e);
      case TextureIncRef(_) => TextureStepKeepsInv(s, e);
      case TextureIncRefPrivate(_) => TextureStepKeepsInv(s, e);
      case TextureDecRefPrivate(_) => TextureStepKeepsInv(s, e);
      case SetBuffer(_) => FbBufferKeepsInv(s, e);
      case SetReleasePoint(_) => FbBufferKeepsInv(s, e);
      case FbIncRef => FbTakeKeepsInv(s, e);
      case FbIncRefPrivate => FbTakeKeepsInv(s, e);
      case FbDecRef => FbDecRefKeepsInv(s);
      case FbDecRefPrivate => FbDecRefPrivateKeepsInv(s);
    }
  }

  // ----- Main results, over every run -----

  ghost predicate Next(s: System, s': System) {
    exists e :: Enabled(s, e) && Safe(s, e) && s' == Apply(s, e)
  }

  ghost predicate IsRun(run: seq<System>) {
    run != [] && run[0] == START && forall i :: 0 < i < |run| ==> Next(run[i - 1], run[i])
  }

  lemma {:induction false} RunKeepsInv(run: seq<System>, i: nat)
    requires IsRun(run) && i < |run|
    ensures Inv(run[i])
  {
    if i == 0 {
      assert Owners(START) == {} && Users(START) == {};
    } else {
      RunKeepsInv(run, i - 1);
      assert Next(run[i - 1], run[i]);
      var e :| Enabled(run[i - 1], e) && Safe(run[i - 1], e) && run[i] == Apply(run[i - 1], e);
      StepKeepsInv(run[i - 1], e);
    }
  }

  /**
    In every reachable state the framebuffer's public count is its direct handles plus the live textures in
    front of it that are publicly referenced, and it holds exactly one lock, on its client buffer, if that
    count is positive and a client buffer is set, and no lock otherwise.
  */
  lemma LocksFollowReferences(run: seq<System>, i: nat)
    requires IsRun(run) && i < |run|
    ensures var s := run[i];
            && s.fb.refCount == s.direct + |Users(s)|
            && (s.fb.refCount > 0 && s.fb.clientBuffer.Some? <==> s.fb.locked != multiset{})
            && (s.fb.locked != multiset{} ==> s.fb.locked == multiset{s.fb.clientBuffer.value})
            && (s.fb.deleted <==> s.direct == 0 && s.directPrivate == 0 && Owners(s) == {})
  {
    RunKeepsInv(run, i);
    var s := run[i];
    assert Users(s) <= Owners(s);
    if Owners(s) == {} {
      assert Users(s) == {};
    }
  }

  /** In every reachable state every enabled event is safe, so no run ever gets stuck on a freed object. */
  lemma NothingFreedIsTouched(run: seq<System>, i: nat, e: Event)
    requires IsRun(run) && i < |run| && Enabled(run[i], e)
    ensures Safe(run[i], e)
  {
    RunKeepsInv(run, i);
    EveryEventIsSafe(run[i], e);
  }

  ghost predicate LastReferenceGoes(fb: Fb, fb': Fb) {
    (fb.refCount > 0 && fb'.refCount == 0) || (!fb.deleted && fb'.deleted)
  }

  lemma PointWithTexture(t: Texture, fb: Fb)
    ensures MayTextureDecRef(t, fb) ==>
              var fb' := AfterTextureDecRef(t, fb).1;
              PointFollows(fb, fb', LastReferenceGoes(fb, fb'), None)
  {
    if MayTextureDecRef(t, fb) {
      TextureDecRefIs(t, fb);
      hide AfterTextureDecRef;
    }
  }

  /**
    The release point is kept until it is replaced, the last public reference goes or the framebuffer is deleted;
    then it is let go, once.
  */
  lemma ReleasePointLifetime(s: System, e: Event)
    requires Enabled(s, e) && Safe(s, e)
    ensures var fb, fb' := s.fb, Apply(s, e).fb;
            PointFollows(
              fb, fb', e.SetReleasePoint? || (e.SetBuffer? && fb.clientBuffer.None?) || LastReferenceGoes(fb, fb'),
              if e.SetReleasePoint? then Some(e.point) else None)
  {
    if e.TextureDecRef? {
      PointWithTexture(s.textures[e.id], s.fb);
    }
  }

  /** Setting a buffer stores it, and locks it when the framebuffer is referenced. */
  lemma SetBufferLocks(s: System, buffer: BufferId)
    requires Inv(s) && Enabled(s, SetBuffer(buffer))
    ensures var fb := Apply(s, SetBuffer(buffer)).fb;
            && fb.clientBuffer == Some(buffer)
            && fb.refCount == s.fb.refCount && fb.refPrivate == s.fb.refPrivate && fb.deleted == s.fb.deleted
            && fb.locked == if s.fb.refCount > 0 then multiset{buffer} else multiset{}
  {
    FbBufferKeepsInv(s, SetBuffer(buffer));
  }

  /** The client buffer is the one set last, until a release point is given to the referenced framebuffer. */
  lemma ClientBufferFollows(s: System, e: Event)
    requires Enabled(s, e) && Safe(s, e)
    ensures Apply(s, e).fb.clientBuffer ==
            match e
            case SetBuffer(b) => Some(b)
            case SetReleasePoint(_) => if s.fb.refCount > 0 then None else s.fb.clientBuffer
            case _ => s.fb.clientBuffer
  {
    if e.TextureDecRef? {
      BufferWithTexture(s.textures[e.id], s.fb);
    }
  }

  lemma BufferWithTexture(t: Texture, fb: Fb)
    ensures MayTextureDecRef(t, fb) ==> AfterTextureDecRef(t, fb).1.clientBuffer == fb.clientBuffer
  {}

  function Change(up: bool, down: bool): int {
    (if up then 1 else 0) - (if down then 1 else 0)
  }

  /** Handles come and go one by one, with the operations on them and no others. */
  lemma HandlesFollow(s: System, e: Event, id: TextureId)
    requires Inv(s) && Enabled(s, e) && Safe(s, e)
    ensures var s' := Apply(s, e);
            && s'.direct == s.direct + Change(e == FbIncRef, e == FbDecRef)
            && s'.directPrivate == s.directPrivate + Change(e == FbIncRefPrivate, e == FbDecRefPrivate)
            && (id in s'.textures <==> id in s.textures || e == NewTexture(id))
            && (id in s.textures ==>
                  var t, t' := s.textures[id], s'.textures[id];
                  && t'.refCount == t.refCount + Change(e == TextureIncRef(id), e == TextureDecRef(id))
                  && TextureHandles(t') ==
                       TextureHandles(t) + Change(e == TextureIncRefPrivate(id), e == TextureDecRefPrivate(id))
                  && (t'.attached <==> t.attached || e == Attach(id)))
            && (e == NewTexture(id) ==> s'.textures[id] == Texture(0, 1, false, false))
  {
    hide AfterDecRef, AfterIncRef, AfterDecPrivate, AfterSetBuffer, AfterSetReleasePoint, Owners, Users;
  }

  /** With explicit sync the client's buffer is unlocked at once, though the framebuffer is still referenced. */
  lemma ExplicitSyncUnlocksEarly(s: System, point: ReleasePoint)
    requires Inv(s) && Enabled(s, SetReleasePoint(point)) && Safe(s, SetReleasePoint(point))
    ensures var fb := Apply(s, SetReleasePoint(point)).fb;
            && fb.locked == multiset{}
            && fb.refCount == s.fb.refCount
            && fb.clientBuffer == (if s.fb.refCount > 0 then None else s.fb.clientBuffer)
            && fb.releasePoint == Some(point)
  {
    FbBufferKeepsInv(s, SetReleasePoint(point));
  }

  /** Attaching keeps the counts right exactly when the texture has no public reference yet. */
  lemma AttachOnlyUnsharedTextures(s: System, id: TextureId)
    requires Inv(s) && MayAttach(s, id)
    ensures Inv(Attached(s, id)) <==> s.textures[id].refCount == 0
  {
    Replaced(s, id, s.textures[id].(attached := true));
    Unchanged(s.(textures := Attached(s, id).textures), Attached(s, id));
    if s.textures[id].refCount == 0 {
      StepKeepsInv(s, Attach(id));
    }
  }
}
