/**
 * struct wlr_buffer with the fields of the two client-buffer backends, and
 * the functions of types/wlr_buffer.c that update them in place. Every
 * method is proved to take the buffer to the state, and to emit the events,
 * that the matching function of module Lifecycle gives.
 */
module Buffers {
  import opened Protocol
  import opened Lifecycle

  class Buffer {
    const impl: Impl
    const width: int
    const height: int

    var nLocks: nat
    var dropped: bool
    var accessingDataPtr: bool
    /** impl->destroy has run: the object is freed and may not be used again. */
    var destroyed: bool

    // wlr_client_buffer and wlr_shm_client_buffer
    var resource: Option<Resource>
    var resourceReleased: bool
    var texture: Option<Texture>
    var shmBuffer: Option<ShmInfo>
    var savedShmPool: Option<nat>
    var savedData: nat

    function State(): BufState
      reads this
    {
      BufState(impl, width, height, nLocks, dropped, accessingDataPtr, destroyed,
               resource, resourceReleased, texture, shmBuffer, savedShmPool, savedData)
    }

    predicate Valid()
      reads this
    {
      Inv(State())
    }

    /**
     * wlr_buffer_init on a zero-filled allocation: the table is checked and
     * stored with the size; the counters and flags that calloc zeroes are
     * set to zero here.
     */
    constructor Init(impl: Impl, width: int, height: int)
      requires WellFormed(Table(impl))
      ensures State() == Lifecycle.Init(impl, width, height)
      ensures Valid()
    {
      this.impl := impl;
      this.width := width;
      this.height := height;
      nLocks := 0;
      dropped := false;
      accessingDataPtr := false;
      destroyed := false;
      resource := None;
      resourceReleased := false;
      texture := None;
      shmBuffer := None;
      savedShmPool := None;
      savedData := 0;
    }
  }

  /** wlr_client_buffer_get: the buffer itself if it is a client buffer, null otherwise. */
  function ClientBufferGet(b: Buffer): (r: Buffer?)
    ensures r != null <==> b.impl.ClientImpl?
    ensures r != null ==> r == b
  {
    if b.impl.ClientImpl? then b else null
  }

  // ---------------------------------------------------------------------
  // Backend callbacks

  /** client_buffer_handle_release */
  method ClientBufferHandleRelease(b: Buffer, log: Log)
    requires b.impl.ClientImpl?
    modifies b, log
    ensures b.State() == ReleaseListener(old(b.State())).state
    ensures log.events == old(log.events) + ReleaseListener(old(b.State())).events
  {
    if !b.resourceReleased && b.resource.Some? {
      log.Emit(SendRelease(b.resource.value.id));
      b.resourceReleased := true;
    }
  }

  /** shm_client_buffer_handle_release */
  method ShmClientBufferHandleRelease(b: Buffer, log: Log)
    requires b.impl.ShmClientImpl?
    modifies log
    ensures b.State() == ReleaseListener(b.State()).state
    ensures log.events == old(log.events) + ReleaseListener(b.State()).events
  {
    if b.resource.Some? {
      log.Emit(SendRelease(b.resource.value.id));
    }
  }

  /** Emitting events.release: the signal, then the backend's release listener. */
  method EmitRelease(b: Buffer, log: Log)
    modifies b, log
    ensures b.State() == ReleaseListener(old(b.State())).state
    ensures log.events == old(log.events) + [Release(b)] + ReleaseListener(old(b.State())).events
  {
    log.Emit(Release(b));
    match b.impl
    case ClientImpl => ClientBufferHandleRelease(b, log);
    case ShmClientImpl(_, _) => ShmClientBufferHandleRelease(b, log);
    case OtherImpl(_) =>
  }

  /** client_buffer_destroy; freeing the struct is recorded in `destroyed`. */
  method ClientBufferDestroy(b: Buffer, log: Log)
    requires b.impl.ClientImpl?
    modifies b, log
    ensures b.State() == old(b.State()).(destroyed := true)
    ensures log.events == old(log.events) + DestroyCallback(old(b.State()))
  {
    if !b.resourceReleased && b.resource.Some? {
      log.Emit(SendRelease(b.resource.value.id));
    }
    if b.texture.Some? {
      log.Emit(TextureDestroy(b.texture.value));
    }
    b.destroyed := true;
  }

  /** shm_client_buffer_destroy; freeing the struct is recorded in `destroyed`. */
  method ShmClientBufferDestroy(b: Buffer, log: Log)
    requires b.impl.ShmClientImpl?
    modifies b, log
    ensures b.State() == old(b.State()).(destroyed := true)
    ensures log.events == old(log.events) + DestroyCallback(old(b.State()))
  {
    if b.savedShmPool.Some? {
      log.Emit(PoolUnref(b.savedShmPool.value));
    }
    b.destroyed := true;
  }

  /** impl->destroy */
  method ImplDestroy(b: Buffer, log: Log)
    modifies b, log
    ensures b.State() == old(b.State()).(destroyed := true)
    ensures log.events == old(log.events) + DestroyCallback(old(b.State()))
  {
    match b.impl
    case ClientImpl => ClientBufferDestroy(b, log);
    case ShmClientImpl(_, _) => ShmClientBufferDestroy(b, log);
    case OtherImpl(_) => b.destroyed := true;
  }

  // ---------------------------------------------------------------------
  // The generic buffer

  /** buffer_consider_destroy */
  method ConsiderDestroy(b: Buffer, log: Log)
    requires !b.destroyed
    requires b.dropped && b.nLocks == 0 ==> !b.accessingDataPtr
    modifies b, log
    ensures b.State() == Lifecycle.ConsiderDestroy(old(b.State()), b).state
    ensures log.events == old(log.events) + Lifecycle.ConsiderDestroy(old(b.State()), b).events
  {
    if !b.dropped || b.nLocks > 0 {
      return;
    }
    ghost var s0, log0 := b.State(), log.events;
    log.Emit(Destroy(b));
    ImplDestroy(b, log);
    assert log.events == log0 + ([Destroy(b)] + DestroyCallback(s0));
    assert Lifecycle.ConsiderDestroy(s0, b) == Step(s0.(destroyed := true), [Destroy(b)] + DestroyCallback(s0));
  }

  /** wlr_buffer_drop: a no-op on null; otherwise the producer lets go. */
  method Drop(b: Buffer?, log: Log)
    requires b != null ==> b.Valid() && !b.dropped && (b.nLocks == 0 ==> !b.accessingDataPtr)
    modifies b, log
    ensures b == null ==> log.events == old(log.events)
    ensures b != null ==> b.Valid()
    ensures b != null ==> b.State() == Lifecycle.Drop(old(b.State()), b).state
    ensures b != null ==> log.events == old(log.events) + Lifecycle.Drop(old(b.State()), b).events
  {
    if b == null {
      return;
    }
    b.dropped := true;
    ConsiderDestroy(b, log);
  }

  /** wlr_buffer_lock: one more consumer; returns the same buffer. */
  method Lock(b: Buffer) returns (r: Buffer)
    requires b.Valid() && !b.destroyed
    modifies b
    ensures r == b && b.Valid()
    ensures b.State() == Lifecycle.Lock(old(b.State()))
  {
    b.nLocks := b.nLocks + 1;
    r := b;
  }

  /** wlr_buffer_unlock: a no-op on null; otherwise a consumer lets go. */
  method Unlock(b: Buffer?, log: Log)
    requires b != null ==> b.Valid() && b.nLocks > 0 && (b.nLocks == 1 && b.dropped ==> !b.accessingDataPtr)
    modifies b, log
    ensures b == null ==> log.events == old(log.events)
    ensures b != null ==> b.Valid()
    ensures b != null ==> b.State() == Lifecycle.Unlock(old(b.State()), b).state
    ensures b != null ==> log.events == old(log.events) + Lifecycle.Unlock(old(b.State()), b).events
  {
    if b == null {
      return;
    }
    ghost var s0, log0 := b.State(), log.events;
    ghost var s1 := s0.(nLocks := s0.nLocks - 1);
    ghost var rel := if s1.nLocks == 0 then ReleaseListener(s1) else Step(s1, []);
    ghost var relEvents := if s1.nLocks == 0 then [Release(b)] + rel.events else [];
    CountDown(b, log);
    ConsiderDestroy(b, log);
    ghost var d := Lifecycle.ConsiderDestroy(rel.state, b);
    assert log.events == log0 + (relEvents + d.events);
    UnlockStages(s0, b);
  }

  /** The first stages of wlr_buffer_unlock: one lock fewer, and the release signal on reaching zero. */
  method CountDown(b: Buffer, log: Log)
    requires b.nLocks > 0
    modifies b, log
    ensures var s1 := old(b.State()).(nLocks := old(b.nLocks) - 1);
            var rel := if s1.nLocks == 0 then ReleaseListener(s1) else Step(s1, []);
            && b.State() == rel.state
            && log.events == old(log.events) + (if s1.nLocks == 0 then [Release(b)] + rel.events else [])
  {
    b.nLocks := b.nLocks - 1;
    if b.nLocks == 0 {
      EmitRelease(b, log);
    }
  }

  /** wlr_buffer_get_dmabuf; `answer` is what another producer's callback returns. */
  method GetDmabuf(b: Buffer, answer: Option<DmabufAttributes>) returns (ok: bool, attribs: DmabufAttributes)
    requires b.Valid() && !b.destroyed
    ensures ok <==> Lifecycle.GetDmabuf(b.State(), answer).Some?
    ensures ok ==> attribs == Lifecycle.GetDmabuf(b.State(), answer).value
  {
    attribs := DmabufAttributes(0, 0, 0, []);
    if !Table(b.impl).getDmabuf {
      return false, attribs;
    }
    match b.impl
    case ClientImpl =>
      ok, attribs := ClientBufferGetDmabuf(b);
    case ShmClientImpl(_, _) =>
      ok := false;
    case OtherImpl(_) =>
      ok := answer.Some?;
      if ok {
        attribs := answer.value;
      }
  }

  /** client_buffer_get_dmabuf */
  method ClientBufferGetDmabuf(b: Buffer) returns (ok: bool, attribs: DmabufAttributes)
    requires b.impl.ClientImpl?
    ensures ok <==> b.resource.Some? && b.resource.value.dmabuf.Some?
    ensures ok ==> attribs == b.resource.value.dmabuf.value
  {
    attribs := DmabufAttributes(0, 0, 0, []);
    if b.resource.None? {
      return false, attribs;
    }
    var bufferResource := b.resource.value;
    if bufferResource.dmabuf.None? {
      return false, attribs;
    }
    return true, bufferResource.dmabuf.value;
  }

  /** wlr_buffer_get_shm; `answer` is what another producer's callback returns. */
  method GetShm(b: Buffer, answer: Option<ShmInfo>) returns (ok: bool, attribs: ShmInfo)
    requires b.Valid() && !b.destroyed
    ensures ok <==> Lifecycle.GetShm(b.State(), answer).Some?
    ensures ok ==> attribs == Lifecycle.GetShm(b.State(), answer).value
  {
    attribs := ShmInfo(0, 0, 0, 0, 0, 0);
    if !Table(b.impl).getShm {
      return false, attribs;
    }
    ok := answer.Some?;
    if ok {
      attribs := answer.value;
    }
  }

  /** shm_client_buffer_begin_data_ptr_access: never fails. */
  method ShmClientBufferBeginDataPtrAccess(b: Buffer, log: Log) returns (data: nat, format: u32, stride: int)
    requires b.Valid() && b.impl.ShmClientImpl? && !b.destroyed && !b.accessingDataPtr
    modifies log
    ensures Access(data, format, stride) == BeginAccess(b.State(), None).1.value
    ensures log.events == old(log.events) + BeginAccess(b.State(), None).0.events
  {
    format := b.impl.format;
    stride := b.impl.stride as int;
    if b.shmBuffer.Some? {
      data := b.shmBuffer.value.data;
      log.Emit(ShmBeginAccess(b.resource.value.id));
    } else {
      data := b.savedData;
    }
  }

  /** shm_client_buffer_end_data_ptr_access */
  method ShmClientBufferEndDataPtrAccess(b: Buffer, log: Log)
    requires b.Valid() && b.impl.ShmClientImpl?
    modifies log
    ensures log.events == old(log.events) + (if b.shmBuffer.Some? then [ShmEndAccess(b.resource.value.id)] else [])
  {
    if b.shmBuffer.Some? {
      log.Emit(ShmEndAccess(b.resource.value.id));
    }
  }

  /**
   * buffer_begin_data_ptr_access: opens the exclusive session when the
   * backend's begin callback exists and succeeds. `answer` is what another
   * producer's callback returns.
   */
  method BeginDataPtrAccess(b: Buffer, log: Log, answer: Option<Access>)
    returns (ok: bool, data: nat, format: u32, stride: int)
    requires b.Valid() && !b.destroyed && !b.accessingDataPtr
    modifies b, log
    ensures b.Valid()
    ensures ok == BeginAccess(old(b.State()), answer).1.Some?
    ensures ok ==> Access(data, format, stride) == BeginAccess(old(b.State()), answer).1.value
    ensures b.State() == BeginAccess(old(b.State()), answer).0.state
    ensures log.events == old(log.events) + BeginAccess(old(b.State()), answer).0.events
  {
    data, format, stride := 0, 0, 0;
    if !Table(b.impl).beginAccess {
      return false, data, format, stride;
    }
    match b.impl {
      case ShmClientImpl(_, _) =>
        data, format, stride := ShmClientBufferBeginDataPtrAccess(b, log);
        ok := true;
      case OtherImpl(_) =>
        ok := answer.Some?;
        if ok {
          data, format, stride := answer.value.data, answer.value.format, answer.value.stride;
        }
    }
    if !ok {
      return;
    }
    b.accessingDataPtr := true;
  }

  /** buffer_end_data_ptr_access: closes the open session. */
  method EndDataPtrAccess(b: Buffer, log: Log)
    requires b.Valid() && b.accessingDataPtr
    modifies b, log
    ensures b.Valid()
    ensures b.State() == EndAccess(old(b.State())).state
    ensures log.events == old(log.events) + EndAccess(old(b.State())).events
  {
    match b.impl {
      case ShmClientImpl(_, _) => ShmClientBufferEndDataPtrAccess(b, log);
      case OtherImpl(_) =>
    }
    b.accessingDataPtr := false;
  }

  // ---------------------------------------------------------------------
  // The client destroys its wl_buffer

  /** client_buffer_resource_handle_destroy */
  method ClientBufferResourceHandleDestroy(b: Buffer, log: Log)
    requires b.Valid() && !b.destroyed && b.impl.ClientImpl? && b.resource.Some?
    modifies b
    ensures b.Valid()
    ensures b.State() == ResourceDestroyed(old(b.State())).state
    ensures ResourceDestroyed(old(b.State())).events == []
  {
    b.resource := None;
  }

  /** shm_client_buffer_resource_handle_destroy */
  method ShmClientBufferResourceHandleDestroy(b: Buffer, log: Log)
    requires b.Valid() && !b.destroyed && b.impl.ShmClientImpl? && b.resource.Some?
    modifies b, log
    ensures b.Valid()
    ensures b.State() == ResourceDestroyed(old(b.State())).state
    ensures log.events == old(log.events) + ResourceDestroyed(old(b.State())).events
  {
    var shm := b.shmBuffer.value;
    log.Emit(PoolRef(shm.pool));
    b.savedShmPool := Some(shm.pool);
    b.savedData := shm.data;
    b.resource := None;
    b.shmBuffer := None;
  }

  /**
   * shm_client_buffer_create: wraps a shm wl_buffer, capturing its size,
   * its format translated to DRM and its stride.
   */
  method ShmClientBufferCreate(r: Resource) returns (b: Buffer)
    requires r.shm.Some?
    ensures fresh(b) && b.Valid()
    ensures b.State() == Lifecycle.Init(ShmClientImpl(ShmFormatToDrm(r.shm.value.format), r.shm.value.stride),
                                        r.shm.value.width, r.shm.value.height)
                           .(resource := Some(r), shm := r.shm)
  {
    var shmBuffer := r.shm.value;
    Lifecycle.ConcreteTablesWellFormed(ShmFormatToDrm(shmBuffer.format), shmBuffer.stride);
    b := new Buffer.Init(ShmClientImpl(ShmFormatToDrm(shmBuffer.format), shmBuffer.stride),
                         shmBuffer.width, shmBuffer.height);
    b.resource := Some(r);
    b.shmBuffer := Some(shmBuffer);
  }
}
