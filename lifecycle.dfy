/**
 * The state machine of a wlr_buffer and its two client-buffer backends, as
 * pure functions: each operation maps the buffer's fields to new fields and
 * the events it emits, in order. The class in module Buffers is proved to
 * follow these functions; the lemmas at the end state what holds over any
 * sequence of operations.
 */
module Lifecycle {
  import opened Protocol

  /** Which callbacks a wlr_buffer_impl table fills in. */
  datatype Caps = Caps(destroy: bool, getDmabuf: bool, getShm: bool, beginAccess: bool, endAccess: bool)

  /** What wlr_buffer_init demands of a table: destroy, and begin/end access both or neither. */
  predicate WellFormed(c: Caps) {
    c.destroy && (c.beginAccess || c.endAccess ==> c.beginAccess && c.endAccess)
  }

  /**
   * The table a buffer was initialised with: client_buffer_impl,
   * shm_client_buffer_impl (which also fixes the format and stride captured
   * at creation), or a table of some other producer.
   */
  datatype Impl = ClientImpl | ShmClientImpl(format: u32, stride: i32) | OtherImpl(caps: Caps)

  function Table(impl: Impl): Caps {
    match impl
    case ClientImpl => Caps(destroy := true, getDmabuf := true, getShm := false, beginAccess := false, endAccess := false)
    case ShmClientImpl(_, _) => Caps(destroy := true, getDmabuf := false, getShm := false, beginAccess := true, endAccess := true)
    case OtherImpl(caps) => caps
  }

  /**
   * The fields of a wlr_buffer and of the backend struct around it.
   * `destroyed` records that impl->destroy has run (the memory is freed).
   * `resource`, `released` and `texture` are wlr_client_buffer's fields (and
   * `resource` also wlr_shm_client_buffer's); `shm`, `savedPool` and
   * `savedData` are wlr_shm_client_buffer's shm_buffer, saved_shm_pool and
   * saved_data.
   */
  datatype BufState = BufState(
    impl: Impl,
    width: int,
    height: int,
    nLocks: nat,
    dropped: bool,
    accessing: bool,
    destroyed: bool,
    resource: Option<Resource>,
    released: bool,
    texture: Option<Texture>,
    shm: Option<ShmInfo>,
    savedPool: Option<nat>,
    savedData: nat)

  /** A new state and the events emitted on the way to it. */
  datatype Step = Step(state: BufState, events: seq<Event>)

  /** The weak shm_buffer link follows the resource; a saved pool exists only once the resource is gone. */
  predicate ShmLinked(s: BufState) {
    && (s.shm.Some? <==> s.resource.Some?)
    && (s.resource.Some? ==> s.resource.value.shm == s.shm)
    && (s.savedPool.Some? ==> s.resource.None?)
  }

  /**
   * The buffer invariant: the table is one init accepts, the buffer is
   * destroyed exactly when it is dropped and unlocked, a destroyed buffer has
   * no open session, and a shm buffer keeps its resource links consistent.
   */
  predicate Inv(s: BufState) {
    && WellFormed(Table(s.impl))
    && (s.destroyed <==> s.dropped && s.nLocks == 0)
    && (s.accessing ==> !s.destroyed && Table(s.impl).beginAccess)
    && (s.impl.ShmClientImpl? ==> ShmLinked(s))
  }

  lemma ConcreteTablesWellFormed(format: u32, stride: i32)
    ensures WellFormed(Table(ClientImpl)) && WellFormed(Table(ShmClientImpl(format, stride)))
    ensures Table(ClientImpl).getDmabuf && !Table(ClientImpl).beginAccess && !Table(ClientImpl).getShm
    ensures Table(ShmClientImpl(format, stride)).beginAccess && Table(ShmClientImpl(format, stride)).endAccess
    ensures !Table(ShmClientImpl(format, stride)).getShm && !Table(ShmClientImpl(format, stride)).getDmabuf
  {
  }

  /** wlr_buffer_init on zeroed memory: no locks, not dropped, no session. */
  function Init(impl: Impl, width: int, height: int): (s: BufState)
    requires WellFormed(Table(impl))
    ensures Inv(s) && !s.destroyed
    ensures s.nLocks == 0 && !s.dropped && !s.accessing
    ensures s.impl == impl && s.width == width && s.height == height
  {
    BufState(impl, width, height, 0, false, false, false, None, false, None, None, None, 0)
  }

  /**
   * The listener a backend registers on events.release:
   * client_buffer_handle_release sends a release once, guarded by
   * `released`; shm_client_buffer_handle_release sends one whenever the
   * resource still exists.
   */
  function ReleaseListener(s: BufState): (r: Step)
    ensures forall e <- r.events :: e.SendRelease?
    ensures r.state.nLocks == s.nLocks && r.state.dropped == s.dropped && r.state.accessing == s.accessing
    ensures r.state.destroyed == s.destroyed && r.state.impl == s.impl && r.state.resource == s.resource
    ensures r.state.shm == s.shm && r.state.savedPool == s.savedPool && r.state.savedData == s.savedData
    ensures s.impl.ClientImpl? ==> (r.events != [] <==> !s.released && s.resource.Some?)
    ensures s.impl.ClientImpl? ==> (r.state.released <==> s.released || s.resource.Some?)
    ensures s.impl.ClientImpl? ==> r.state == s.(released := s.released || s.resource.Some?)
    ensures s.impl.ShmClientImpl? ==> r.state == s && (r.events != [] <==> s.resource.Some?)
    ensures r.events != [] ==> s.resource.Some? && r.events == [SendRelease(s.resource.value.id)]
  {
    match s.impl
    case ClientImpl =>
      if !s.released && s.resource.Some? then
        Step(s.(released := true), [SendRelease(s.resource.value.id)])
      else Step(s, [])
    case ShmClientImpl(_, _) =>
      Step(s, if s.resource.Some? then [SendRelease(s.resource.value.id)] else [])
    case OtherImpl(_) => Step(s, [])
  }

  /**
   * The events of impl->destroy: client_buffer_destroy sends a release the
   * client has not had yet and destroys the texture; shm_client_buffer_destroy
   * drops the pool reference it took, if any.
   */
  function DestroyCallback(s: BufState): (r: seq<Event>)
    ensures forall e <- r :: e.SendRelease? || e.TextureDestroy? || e.PoolUnref?
    ensures s.impl.ClientImpl? && s.resource.Some? ==> (SendRelease(s.resource.value.id) in r <==> !s.released)
    ensures s.impl.ClientImpl? && s.resource.None? ==> forall e <- r :: !e.SendRelease?
    ensures s.impl.ClientImpl? ==> forall e <- r :: e.SendRelease? ==> s.resource.Some? && e.resource == s.resource.value.id
    ensures s.impl.ClientImpl? ==> forall e <- r :: e.TextureDestroy? ==> s.texture == Some(e.texture)
    ensures s.impl.ClientImpl? && s.texture.Some? ==> r != [] && r[|r| - 1] == TextureDestroy(s.texture.value)
    ensures s.impl.ClientImpl? ==> |r| <= 2
    ensures s.impl.ClientImpl? ==>
      |r| == (if !s.released && s.resource.Some? then 1 else 0) + (if s.texture.Some? then 1 else 0)
    ensures s.impl.ShmClientImpl? ==> r == if s.savedPool.Some? then [PoolUnref(s.savedPool.value)] else []
    ensures s.impl.OtherImpl? ==> r == []
  {
    match s.impl
    case ClientImpl =>
      (if !s.released && s.resource.Some? then [SendRelease(s.resource.value.id)] else [])
      + (if s.texture.Some? then [TextureDestroy(s.texture.value)] else [])
    case ShmClientImpl(_, _) =>
      if s.savedPool.Some? then [PoolUnref(s.savedPool.value)] else []
    case OtherImpl(_) => []
  }

  /**
   * buffer_consider_destroy: when the buffer is dropped and unlocked, emit
   * the destroy signal, then run the backend's destroy; otherwise nothing.
   */
  function ConsiderDestroy(s: BufState, b: object): (r: Step)
    requires !s.destroyed
    requires s.dropped && s.nLocks == 0 ==> !s.accessing
    ensures r.state.destroyed <==> s.dropped && s.nLocks == 0
    ensures r.state.(destroyed := false) == s
    ensures r.events != [] <==> r.state.destroyed
    ensures r.state.destroyed ==> r.events[0] == Destroy(b) && Destroy(b) !in r.events[1..]
    ensures r.state.destroyed ==> r.events[1..] == DestroyCallback(s)
    ensures Release(b) !in r.events
  {
    if !s.dropped || s.nLocks > 0 then Step(s, [])
    else Step(s.(destroyed := true), [Destroy(b)] + DestroyCallback(s))
  }

  /** wlr_buffer_drop on a buffer: mark it dropped, then consider destroying it. */
  function Drop(s: BufState, b: object): (r: Step)
    requires Inv(s) && !s.dropped
    requires s.nLocks == 0 ==> !s.accessing
    ensures Inv(r.state) && r.state.dropped
    ensures r.state.nLocks == s.nLocks
    ensures r.state.destroyed <==> s.nLocks == 0
    ensures Destroy(b) in r.events <==> s.nLocks == 0
    ensures Release(b) !in r.events
    ensures r.state == s.(dropped := true, destroyed := s.nLocks == 0)
    ensures s.nLocks > 0 ==> r.events == []
    ensures s.nLocks == 0 ==> r.events == [Destroy(b)] + DestroyCallback(s)
  {
    ConsiderDestroy(s.(dropped := true), b)
  }

  /** wlr_buffer_lock: one more consumer. */
  function Lock(s: BufState): (r: BufState)
    requires Inv(s) && !s.destroyed
    ensures Inv(r) && !r.destroyed
    ensures r.nLocks == s.nLocks + 1 && r.(nLocks := s.nLocks) == s
  {
    s.(nLocks := s.nLocks + 1)
  }

  /**
   * wlr_buffer_unlock on a buffer: one consumer fewer; on reaching zero the
   * release signal (and the backend's release listener) runs, and only then
   * is destruction considered.
   */
  function Unlock(s: BufState, b: object): (r: Step)
    requires Inv(s) && s.nLocks > 0
    requires s.nLocks == 1 && s.dropped ==> !s.accessing
    ensures Inv(r.state)
    ensures r.state.nLocks == s.nLocks - 1 && r.state.dropped == s.dropped
    ensures Release(b) in r.events <==> s.nLocks == 1
    ensures s.nLocks == 1 ==> r.events[0] == Release(b)
    ensures r.state.destroyed <==> s.nLocks == 1 && s.dropped
    ensures Destroy(b) in r.events <==> r.state.destroyed
    ensures s.nLocks > 1 ==> r == Step(s.(nLocks := s.nLocks - 1), [])
  {
    var s1 := s.(nLocks := s.nLocks - 1);
    var rel := if s1.nLocks == 0 then ReleaseListener(s1) else Step(s1, []);
    var rel' := Step(rel.state, if s1.nLocks == 0 then [Release(b)] + rel.events else []);
    var d := ConsiderDestroy(rel'.state, b);
    assert Release(b) !in rel.events && Destroy(b) !in rel.events;
    assert Destroy(b) !in rel'.events;
    Step(d.state, rel'.events + d.events)
  }

  /** Unlock as its three stages: count down, release on reaching zero, consider destroying. */
  lemma UnlockStages(s: BufState, b: object)
    requires Inv(s) && s.nLocks > 0
    requires s.nLocks == 1 && s.dropped ==> !s.accessing
    ensures var s1 := s.(nLocks := s.nLocks - 1);
            var rel := if s1.nLocks == 0 then ReleaseListener(s1) else Step(s1, []);
            var d := ConsiderDestroy(rel.state, b);
            Unlock(s, b) == Step(d.state, (if s1.nLocks == 0 then [Release(b)] + rel.events else []) + d.events)
  {
  }

  /**
   * buffer_begin_data_ptr_access: without a begin callback, or when the
   * callback fails, nothing changes and false is returned; on success the
   * session is open. The shm backend always succeeds, handing out the format
   * and stride captured at creation and the live pointer (marking the shm
   * buffer in use) or, once the resource is gone, the saved one. `answer` is
   * what another producer's callback returns.
   */
  function BeginAccess(s: BufState, answer: Option<Access>): (r: (Step, Option<Access>))
    requires Inv(s) && !s.destroyed && !s.accessing
    ensures Inv(r.0.state)
    ensures r.0.state.accessing <==> r.1.Some?
    ensures r.1.Some? <==> Table(s.impl).beginAccess && (s.impl.OtherImpl? ==> answer.Some?)
    ensures r.1.None? ==> r.0 == Step(s, [])
    ensures r.1.Some? ==> r.0.state == s.(accessing := true)
    ensures s.impl.ShmClientImpl? ==>
              r.1 == Some(Access(if s.shm.Some? then s.shm.value.data else s.savedData,
                                 s.impl.format, s.impl.stride as int))
    ensures s.impl.ShmClientImpl? ==>
              r.0.events == if s.shm.Some? then [ShmBeginAccess(s.resource.value.id)] else []
    ensures s.impl.OtherImpl? && s.impl.caps.beginAccess ==> r.1 == answer
  {
    match s.impl
    case ClientImpl => (Step(s, []), None)
    case ShmClientImpl(format, stride) =>
      var access := Access(if s.shm.Some? then s.shm.value.data else s.savedData, format, stride as int);
      (Step(s.(accessing := true), if s.shm.Some? then [ShmBeginAccess(s.resource.value.id)] else []), Some(access))
    case OtherImpl(caps) =>
      if caps.beginAccess && answer.Some? then (Step(s.(accessing := true), []), answer)
      else (Step(s, []), None)
  }

  /**
   * buffer_end_data_ptr_access: close the open session; the shm backend ends
   * its access to the shm buffer only while that is still attached.
   */
  function EndAccess(s: BufState): (r: Step)
    requires Inv(s) && s.accessing
    ensures Inv(r.state) && !r.state.accessing
    ensures r.state == s.(accessing := false)
    ensures s.impl.ShmClientImpl? ==>
              r.events == if s.shm.Some? then [ShmEndAccess(s.resource.value.id)] else []
    ensures !s.impl.ShmClientImpl? ==> r.events == []
  {
    Step(s.(accessing := false),
         if s.impl.ShmClientImpl? && s.shm.Some? then [ShmEndAccess(s.resource.value.id)] else [])
  }

  /**
   * wlr_buffer_get_dmabuf: false without the callback; the client backend
   * answers with the attributes of a linux-dmabuf resource that still
   * exists. `answer` is what another producer's callback returns.
   */
  function GetDmabuf(s: BufState, answer: Option<DmabufAttributes>): (r: Option<DmabufAttributes>)
    requires Inv(s) && !s.destroyed
    ensures !Table(s.impl).getDmabuf ==> r.None?
    ensures s.impl.ClientImpl? ==> (r.Some? <==> s.resource.Some? && s.resource.value.dmabuf.Some?)
    ensures s.impl.ClientImpl? && r.Some? ==> r == s.resource.value.dmabuf
    ensures s.impl.OtherImpl? && s.impl.caps.getDmabuf ==> r == answer
  {
    match s.impl
    case ClientImpl => if s.resource.Some? then s.resource.value.dmabuf else None
    case ShmClientImpl(_, _) => None
    case OtherImpl(caps) => if caps.getDmabuf then answer else None
  }

  /** wlr_buffer_get_shm: false without the callback, which neither client backend has. */
  function GetShm(s: BufState, answer: Option<ShmInfo>): (r: Option<ShmInfo>)
    requires Inv(s) && !s.destroyed
    ensures !Table(s.impl).getShm ==> r.None?
    ensures !s.impl.OtherImpl? ==> r.None?
    ensures s.impl.OtherImpl? && s.impl.caps.getShm ==> r == answer
  {
    if Table(s.impl).getShm then answer else None
  }

  /**
   * The client destroyed the wl_buffer. client_buffer_resource_handle_destroy
   * only forgets it; shm_client_buffer_resource_handle_destroy first takes a
   * reference on the pool and saves the data pointer, then forgets both the
   * resource and the shm buffer.
   */
  function ResourceDestroyed(s: BufState): (r: Step)
    requires Inv(s) && !s.destroyed && !s.impl.OtherImpl? && s.resource.Some?
    ensures Inv(r.state) && r.state.resource.None?
    ensures r.state.nLocks == s.nLocks && r.state.dropped == s.dropped && r.state.accessing == s.accessing
    ensures r.state.destroyed == s.destroyed && r.state.released == s.released && r.state.texture == s.texture
    ensures s.impl.ClientImpl? ==> r == Step(s.(resource := None), [])
    ensures s.impl.ShmClientImpl? ==>
              && r.state.shm.None?
              && r.state.savedPool == Some(s.shm.value.pool)
              && r.state.savedData == s.shm.value.data
              && r.events == [PoolRef(s.shm.value.pool)]
    ensures s.impl.ShmClientImpl? ==>
              r.state == s.(savedPool := Some(s.shm.value.pool), savedData := s.shm.value.data,
                            resource := None, shm := None)
  {
    match s.impl
    case ClientImpl => Step(s.(resource := None), [])
    case ShmClientImpl(_, _) =>
      var info := s.shm.value;
      Step(s.(savedPool := Some(info.pool), savedData := info.data, resource := None, shm := None),
           [PoolRef(info.pool)])
  }

  // ---------------------------------------------------------------------
  // Sequences of operations

  /** The operations callers and the client can perform on a live buffer. */
  datatype Op = LockOp | UnlockOp | DropOp | BeginOp(answer: Option<Access>) | EndOp | ResourceDestroyOp

  /** The assertions of the C code (and the listener discipline of libwayland) as preconditions. */
  predicate Allowed(s: BufState, op: Op) {
    match op
    case LockOp => !s.destroyed
    case UnlockOp => s.nLocks > 0 && (s.nLocks == 1 && s.dropped ==> !s.accessing)
    case DropOp => !s.dropped && (s.nLocks == 0 ==> !s.accessing)
    case BeginOp(_) => !s.destroyed && !s.accessing
    case EndOp => s.accessing
    case ResourceDestroyOp => !s.destroyed && !s.impl.OtherImpl? && s.resource.Some?
  }

  function Apply(s: BufState, b: object, op: Op): (r: Step)
    requires Inv(s) && Allowed(s, op)
    ensures Inv(r.state)
  {
    match op
    case LockOp => Step(Lock(s), [])
    case UnlockOp => Unlock(s, b)
    case DropOp => Drop(s, b)
    case BeginOp(answer) => BeginAccess(s, answer).0
    case EndOp => EndAccess(s)
    case ResourceDestroyOp => ResourceDestroyed(s)
  }

  /** Every operation of `ops` is allowed in the state it is applied to. */
  predicate Admissible(s: BufState, b: object, ops: seq<Op>)
    requires Inv(s)
    decreases |ops|
  {
    ops == [] || (Allowed(s, ops[0]) && Admissible(Apply(s, b, ops[0]).state, b, ops[1..]))
  }

  function Run(s: BufState, b: object, ops: seq<Op>): (r: Step)
    requires Inv(s) && Admissible(s, b, ops)
    ensures Inv(r.state)
    ensures r.state.impl == s.impl
    decreases |ops|
  {
    if ops == [] then Step(s, [])
    else
      var first := Apply(s, b, ops[0]);
      var rest := Run(first.state, b, ops[1..]);
      Step(rest.state, first.events + rest.events)
  }

  function Count(es: seq<Event>, e: Event): nat {
    if es == [] then 0 else (if es[0] == e then 1 else 0) + Count(es[1..], e)
  }

  function OpCount(ops: seq<Op>, op: Op): nat {
    if ops == [] then 0 else (if ops[0] == op then 1 else 0) + OpCount(ops[1..], op)
  }

  lemma {:induction false} CountAppend(a: seq<Event>, c: seq<Event>, e: Event)
    ensures Count(a + c, e) == Count(a, e) + Count(c, e)
  {
    if a == [] {
      assert a + c == c;
    } else {
      assert (a + c)[1..] == a[1..] + c;
      CountAppend(a[1..], c, e);
    }
  }

  lemma {:induction false} CountAbsent(es: seq<Event>, e: Event)
    requires e !in es
    ensures Count(es, e) == 0
  {
    if es != [] {
      CountAbsent(es[1..], e);
    }
  }

  lemma {:induction false} CountOneHead(es: seq<Event>, e: Event)
    requires es != [] && es[0] == e && e !in es[1..]
    ensures Count(es, e) == 1
  {
    CountAbsent(es[1..], e);
  }

  /** Running one operation, then the rest. */
  lemma RunCons(s: BufState, b: object, ops: seq<Op>)
    requires Inv(s) && Admissible(s, b, ops) && ops != []
    ensures Allowed(s, ops[0]) && Admissible(Apply(s, b, ops[0]).state, b, ops[1..])
    ensures Run(s, b, ops).state == Run(Apply(s, b, ops[0]).state, b, ops[1..]).state
    ensures Run(s, b, ops).events == Apply(s, b, ops[0]).events + Run(Apply(s, b, ops[0]).state, b, ops[1..]).events
  {
  }

  /** Nothing may be done to a destroyed buffer. */
  lemma NothingAfterDestroy(s: BufState, op: Op)
    requires Inv(s) && s.destroyed
    ensures !Allowed(s, op)
  {
  }

  /** The lock count is the initial one plus the locks minus the unlocks. */
  lemma {:induction false} LockBalance(s: BufState, b: object, ops: seq<Op>)
    requires Inv(s) && Admissible(s, b, ops)
    ensures Run(s, b, ops).state.nLocks == s.nLocks + OpCount(ops, LockOp) - OpCount(ops, UnlockOp)
    decreases |ops|
  {
    if ops != [] {
      RunCons(s, b, ops);
      LockBalance(Apply(s, b, ops[0]).state, b, ops[1..]);
    }
  }

  /** Once dropped, always dropped: so a second drop is never allowed. */
  lemma {:induction false} DroppedIff(s: BufState, b: object, ops: seq<Op>)
    requires Inv(s) && Admissible(s, b, ops)
    ensures Run(s, b, ops).state.dropped <==> s.dropped || DropOp in ops
    decreases |ops|
  {
    if ops != [] {
      RunCons(s, b, ops);
      DroppedIff(Apply(s, b, ops[0]).state, b, ops[1..]);
      assert ops == [ops[0]] + ops[1..];
    }
  }

  lemma SecondDropRejected(s: BufState, b: object, ops: seq<Op>)
    requires Inv(s) && Admissible(s, b, ops) && DropOp in ops
    ensures !Allowed(Run(s, b, ops).state, DropOp)
  {
    DroppedIff(s, b, ops);
  }

  /**
   * Producer done and consumers done is exactly what destroys a buffer: it
   * ends destroyed if and only if it was dropped and every lock was matched
   * by an unlock.
   */
  lemma DestroyedIffDroppedAndBalanced(s: BufState, b: object, ops: seq<Op>)
    requires Inv(s) && Admissible(s, b, ops)
    ensures Run(s, b, ops).state.destroyed <==>
              (s.dropped || DropOp in ops) && s.nLocks + OpCount(ops, LockOp) == OpCount(ops, UnlockOp)
  {
    LockBalance(s, b, ops);
    DroppedIff(s, b, ops);
  }

  /** One operation emits the destroy signal exactly when it destroys the buffer. */
  lemma ApplyDestroyCount(s: BufState, b: object, op: Op)
    requires Inv(s) && Allowed(s, op) && !s.destroyed
    ensures Count(Apply(s, b, op).events, Destroy(b)) == if Apply(s, b, op).state.destroyed then 1 else 0
  {
    var r := Apply(s, b, op);
    match op
    case UnlockOp =>
      if r.state.destroyed {
        var s1 := s.(nLocks := s.nLocks - 1);
        var rel := ReleaseListener(s1);
        var d := ConsiderDestroy(rel.state, b);
        assert r.events == ([Release(b)] + rel.events) + d.events;
        assert Destroy(b) !in [Release(b)] + rel.events;
        CountAbsent([Release(b)] + rel.events, Destroy(b));
        CountOneHead(d.events, Destroy(b));
        CountAppend([Release(b)] + rel.events, d.events, Destroy(b));
      } else {
        CountAbsent(r.events, Destroy(b));
      }
    case DropOp =>
      if r.state.destroyed {
        CountOneHead(r.events, Destroy(b));
      } else {
        CountAbsent(r.events, Destroy(b));
      }
    case _ =>
      assert r.events == [] || forall e <- r.events :: !e.Destroy?;
      CountAbsent(r.events, Destroy(b));
  }

  /** The destroy signal fires at most once, and exactly once for a buffer that ends destroyed. */
  lemma {:induction false} DestroyAtMostOnce(s: BufState, b: object, ops: seq<Op>)
    requires Inv(s) && !s.destroyed && Admissible(s, b, ops)
    ensures Count(Run(s, b, ops).events, Destroy(b)) == if Run(s, b, ops).state.destroyed then 1 else 0
    decreases |ops|
  {
    if ops != [] {
      RunCons(s, b, ops);
      var first := Apply(s, b, ops[0]);
      ApplyDestroyCount(s, b, ops[0]);
      CountAppend(first.events, Run(first.state, b, ops[1..]).events, Destroy(b));
      if first.state.destroyed {
        assert ops[1..] == [];
      } else {
        DestroyAtMostOnce(first.state, b, ops[1..]);
      }
    }
  }

  function Held(s: BufState): nat {
    if s.nLocks > 0 then 1 else 0
  }

  lemma ApplyReleaseCount(s: BufState, b: object, op: Op)
    requires Inv(s) && Allowed(s, op)
    ensures Count(Apply(s, b, op).events, Release(b)) + Held(Apply(s, b, op).state)
            <= Held(s) + (if op == LockOp then 1 else 0)
  {
    var r := Apply(s, b, op);
    match op
    case UnlockOp =>
      if s.nLocks == 1 {
        var s1 := s.(nLocks := 0);
        var rel := ReleaseListener(s1);
        var d := ConsiderDestroy(rel.state, b);
        assert r.events == [Release(b)] + (rel.events + d.events);
        assert Release(b) !in rel.events + d.events;
        CountOneHead(r.events, Release(b));
      } else {
        CountAbsent(r.events, Release(b));
      }
    case _ =>
      assert Release(b) !in r.events;
      CountAbsent(r.events, Release(b));
  }

  /**
   * Every release signal is paid for by a lock: the releases, plus one if
   * the buffer ends locked, never exceed the locks taken, plus one if it
   * started locked.
   */
  lemma {:induction false} ReleasesPaidByLocks(s: BufState, b: object, ops: seq<Op>)
    requires Inv(s) && Admissible(s, b, ops)
    ensures Count(Run(s, b, ops).events, Release(b)) + Held(Run(s, b, ops).state)
            <= Held(s) + OpCount(ops, LockOp)
    decreases |ops|
  {
    if ops != [] {
      RunCons(s, b, ops);
      var first := Apply(s, b, ops[0]);
      ApplyReleaseCount(s, b, ops[0]);
      ReleasesPaidByLocks(first.state, b, ops[1..]);
      CountAppend(first.events, Run(first.state, b, ops[1..]).events, Release(b));
    }
  }

  /** A client buffer still owes resource `id` one release. */
  function Owed(s: BufState, id: nat): nat {
    if !s.destroyed && !s.released && s.resource.Some? && s.resource.value.id == id then 1 else 0
  }

  lemma UnlockClientSendCount(s: BufState, b: object, id: nat)
    requires Inv(s) && Allowed(s, UnlockOp) && s.impl.ClientImpl?
    ensures Count(Unlock(s, b).events, SendRelease(id)) + Owed(Unlock(s, b).state, id) <= Owed(s, id)
  {
    var r := Unlock(s, b);
    var s1 := s.(nLocks := s.nLocks - 1);
    if s1.nLocks == 0 {
      var rel := ReleaseListener(s1);
      var d := ConsiderDestroy(rel.state, b);
      assert r.events == ([Release(b)] + rel.events) + d.events;
      CountAppend([Release(b)] + rel.events, d.events, SendRelease(id));
      assert Count([Release(b)] + rel.events, SendRelease(id)) == Count(rel.events, SendRelease(id));
      if rel.events == [] {
        CountAbsent(rel.events, SendRelease(id));
      } else if s.resource.value.id != id {
        CountAbsent(rel.events, SendRelease(id));
      }
      assert rel.state.released || rel.state.resource.None?;
      assert SendRelease(id) !in d.events;
      CountAbsent(d.events, SendRelease(id));
    } else {
      CountAbsent(r.events, SendRelease(id));
    }
  }

  lemma DropClientSendCount(s: BufState, b: object, id: nat)
    requires Inv(s) && Allowed(s, DropOp) && s.impl.ClientImpl?
    ensures Count(Drop(s, b).events, SendRelease(id)) + Owed(Drop(s, b).state, id) <= Owed(s, id)
  {
    var r := Drop(s, b);
    if r.state.destroyed {
      assert r.events == [Destroy(b)] + DestroyCallback(s.(dropped := true));
      if Owed(s, id) == 0 {
        assert SendRelease(id) !in r.events;
        CountAbsent(r.events, SendRelease(id));
      } else {
        var cb := DestroyCallback(s.(dropped := true));
        var tex := if s.texture.Some? then [TextureDestroy(s.texture.value)] else [];
        assert cb == [SendRelease(id)] + tex;
        CountAbsent(tex, SendRelease(id));
        assert r.events == [Destroy(b)] + ([SendRelease(id)] + tex);
      }
    } else {
      CountAbsent(r.events, SendRelease(id));
    }
  }

  lemma ApplyClientSendCount(s: BufState, b: object, op: Op, id: nat)
    requires Inv(s) && Allowed(s, op) && s.impl.ClientImpl?
    ensures Count(Apply(s, b, op).events, SendRelease(id)) + Owed(Apply(s, b, op).state, id) <= Owed(s, id)
  {
    match op
    case UnlockOp => UnlockClientSendCount(s, b, id);
    case DropOp => DropClientSendCount(s, b, id);
    case _ => CountAbsent(Apply(s, b, op).events, SendRelease(id));
  }

  /**
   * A client buffer sends its resource at most one release over any sequence
   * of operations, and none once a release was sent or the resource is gone.
   */
  lemma {:induction false} ClientReleaseAtMostOnce(s: BufState, b: object, ops: seq<Op>, id: nat)
    requires Inv(s) && Admissible(s, b, ops) && s.impl.ClientImpl?
    ensures Count(Run(s, b, ops).events, SendRelease(id)) <= Owed(s, id)
    ensures Owed(s, id) <= 1
    decreases |ops|
  {
    if ops != [] {
      RunCons(s, b, ops);
      var first := Apply(s, b, ops[0]);
      ApplyClientSendCount(s, b, ops[0], id);
      ClientReleaseAtMostOnce(first.state, b, ops[1..], id);
      CountAppend(first.events, Run(first.state, b, ops[1..]).events, SendRelease(id));
    }
  }

  /** The pool reference a shm buffer holds, if it is `pool`. */
  function PoolHeld(s: BufState, pool: nat): nat {
    if !s.destroyed && s.savedPool == Some(pool) then 1 else 0
  }

  lemma UnlockPoolCount(s: BufState, b: object, pool: nat)
    requires Inv(s) && Allowed(s, UnlockOp) && s.impl.ShmClientImpl?
    ensures Count(Unlock(s, b).events, PoolRef(pool)) + PoolHeld(s, pool)
            == Count(Unlock(s, b).events, PoolUnref(pool)) + PoolHeld(Unlock(s, b).state, pool)
  {
    var r := Unlock(s, b);
    var s1 := s.(nLocks := s.nLocks - 1);
    UnlockStages(s, b);
    if s1.nLocks == 0 {
      var rel := ReleaseListener(s1);
      var d := ConsiderDestroy(rel.state, b);
      CountAppend([Release(b)] + rel.events, d.events, PoolRef(pool));
      CountAppend([Release(b)] + rel.events, d.events, PoolUnref(pool));
      assert PoolRef(pool) !in [Release(b)] + rel.events && PoolUnref(pool) !in [Release(b)] + rel.events;
      CountAbsent([Release(b)] + rel.events, PoolRef(pool));
      CountAbsent([Release(b)] + rel.events, PoolUnref(pool));
      PoolDestroyCount(rel.state, b, pool);
    } else {
      CountAbsent(r.events, PoolRef(pool));
      CountAbsent(r.events, PoolUnref(pool));
    }
  }

  lemma ApplyPoolCount(s: BufState, b: object, op: Op, pool: nat)
    requires Inv(s) && Allowed(s, op) && s.impl.ShmClientImpl?
    ensures Count(Apply(s, b, op).events, PoolRef(pool)) + PoolHeld(s, pool)
            == Count(Apply(s, b, op).events, PoolUnref(pool)) + PoolHeld(Apply(s, b, op).state, pool)
  {
    var r := Apply(s, b, op);
    match op
    case UnlockOp =>
      UnlockPoolCount(s, b, pool);
    case DropOp =>
      PoolDestroyCount(s.(dropped := true), b, pool);
    case ResourceDestroyOp =>
      if s.shm.value.pool == pool {
        CountOneHead(r.events, PoolRef(pool));
      } else {
        CountAbsent(r.events, PoolRef(pool));
      }
      CountAbsent(r.events, PoolUnref(pool));
    case _ =>
      CountAbsent(r.events, PoolRef(pool));
      CountAbsent(r.events, PoolUnref(pool));
  }

  lemma PoolDestroyCount(s: BufState, b: object, pool: nat)
    requires !s.destroyed && s.impl.ShmClientImpl?
    requires s.dropped && s.nLocks == 0 ==> !s.accessing
    ensures Count(ConsiderDestroy(s, b).events, PoolRef(pool)) == 0
    ensures Count(ConsiderDestroy(s, b).events, PoolUnref(pool)) + PoolHeld(ConsiderDestroy(s, b).state, pool)
            == PoolHeld(s, pool)
  {
    var d := ConsiderDestroy(s, b);
    CountAbsent(d.events, PoolRef(pool));
    if d.state.destroyed && s.savedPool == Some(pool) {
      assert d.events == [Destroy(b), PoolUnref(pool)];
      assert d.events[1..] == [PoolUnref(pool)];
      assert Count(d.events[1..][1..], PoolUnref(pool)) == 0;
    } else {
      assert PoolUnref(pool) !in d.events;
      CountAbsent(d.events, PoolUnref(pool));
    }
  }

  /**
   * A shm buffer leaks no pool reference: references taken minus references
   * dropped is the reference it still holds (so once destroyed, every
   * reference taken during the run was dropped).
   */
  lemma {:induction false} PoolReferencesBalanced(s: BufState, b: object, ops: seq<Op>, pool: nat)
    requires Inv(s) && Admissible(s, b, ops) && s.impl.ShmClientImpl?
    ensures Count(Run(s, b, ops).events, PoolRef(pool)) + PoolHeld(s, pool)
            == Count(Run(s, b, ops).events, PoolUnref(pool)) + PoolHeld(Run(s, b, ops).state, pool)
    decreases |ops|
  {
    if ops != [] {
      RunCons(s, b, ops);
      var first := Apply(s, b, ops[0]);
      ApplyPoolCount(s, b, ops[0], pool);
      PoolReferencesBalanced(first.state, b, ops[1..], pool);
      CountAppend(first.events, Run(first.state, b, ops[1..]).events, PoolRef(pool));
      CountAppend(first.events, Run(first.state, b, ops[1..]).events, PoolUnref(pool));
    }
  }

  /** Once a shm buffer's resource is gone, its saved pool and data pointer never change again. */
  lemma {:induction false} ShmSavedDataStable(s: BufState, b: object, ops: seq<Op>)
    requires Inv(s) && Admissible(s, b, ops) && s.impl.ShmClientImpl? && s.resource.None?
    ensures Run(s, b, ops).state.resource.None? && Run(s, b, ops).state.shm.None?
    ensures Run(s, b, ops).state.savedPool == s.savedPool
    ensures Run(s, b, ops).state.savedData == s.savedData
    decreases |ops|
  {
    if ops != [] {
      RunCons(s, b, ops);
      ShmSavedDataStable(Apply(s, b, ops[0]).state, b, ops[1..]);
    }
  }

  /**
   * A shm buffer whose client destroyed the resource still hands out its
   * pixels: after the destroy and any later operations that leave it alive
   * with no session open, a data-pointer access succeeds with the pointer
   * saved when the resource went away.
   */
  lemma ShmAccessSurvivesResourceDestroy(s: BufState, b: object, ops: seq<Op>, answer: Option<Access>)
    requires Inv(s) && s.impl.ShmClientImpl? && !s.destroyed && s.resource.Some?
    requires Admissible(ResourceDestroyed(s).state, b, ops)
    requires !Run(ResourceDestroyed(s).state, b, ops).state.destroyed
    requires !Run(ResourceDestroyed(s).state, b, ops).state.accessing
    ensures BeginAccess(Run(ResourceDestroyed(s).state, b, ops).state, answer).1
            == Some(Access(s.shm.value.data, s.impl.format, s.impl.stride as int))
  {
    ShmSavedDataStable(ResourceDestroyed(s).state, b, ops);
  }
}
