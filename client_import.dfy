/**
 * wlr_client_buffer_import and wlr_client_buffer_apply_damage: turning a
 * client's wl_buffer into a locked client buffer, and the fast path that
 * re-uploads only the damaged rectangles of a new shm wl_buffer into the
 * texture of an existing one.
 */
module ClientImport {
  import opened Protocol
  import opened Lifecycle
  import opened Buffers

  /** Which import branch a resource takes. */
  datatype Kind = ShmKind | WlDrmKind | DmabufKind | EglStreamKind | UnknownKind

  /**
   * The probes of import, in order: shm, the renderer's wl_drm, linux-dmabuf,
   * and last an EGLStream texture import, which recognises the resource
   * exactly when it yields a texture (`eglTexture`).
   */
  function Classify(r: Resource, eglTexture: bool): (k: Kind)
    ensures k == ShmKind <==> r.shm.Some?
    ensures k == WlDrmKind <==> r.shm.None? && r.wlDrm.Some?
    ensures k == DmabufKind <==> r.shm.None? && r.wlDrm.None? && r.dmabuf.Some?
    ensures k == EglStreamKind <==> r.shm.None? && r.wlDrm.None? && r.dmabuf.None? && eglTexture
    ensures k == UnknownKind <==> r.shm.None? && r.wlDrm.None? && r.dmabuf.None? && !eglTexture
  {
    if r.shm.Some? then ShmKind
    else if r.wlDrm.Some? then WlDrmKind
    else if r.dmabuf.Some? then DmabufKind
    else if eglTexture then EglStreamKind
    else UnknownKind
  }

  /** The branches after which the renderer, not the client buffer, owes the client its release. */
  predicate ReleaseDelegated(k: Kind) {
    k == ShmKind || k == DmabufKind
  }

  /**
   * The events of an import: for shm, the intermediate shm buffer is
   * released and destroyed by the final unlock unless the renderer kept a
   * lock on it; an unrecognised resource gets a protocol error; a failed
   * upload gets a release.
   */
  function ImportEvents(r: Resource, upload: Option<Texture>, rendererLocks: bool, shmb: object?): seq<Event>
    requires r.shm.Some? ==> shmb != null
  {
    match Classify(r, upload.Some?)
    case UnknownKind => [PostError(r.id, 0)]
    case ShmKind =>
      (if rendererLocks then [] else [Release(shmb), SendRelease(r.id), Destroy(shmb)])
      + (if upload.None? then [SendRelease(r.id)] else [])
    case _ => if upload.None? then [SendRelease(r.id)] else []
  }

  /** The client buffer a successful import returns: locked once and dropped by its producer. */
  function Imported(r: Resource, t: Texture, released: bool): (s: BufState)
    ensures Inv(s) && !s.destroyed && s.impl.ClientImpl?
    ensures s.nLocks == 1 && s.dropped && !s.accessing
    ensures s.width == I32(t.width) && s.height == I32(t.height)
    ensures s.resource == Some(r) && s.texture == Some(t) && s.released == released
  {
    Lifecycle.Init(ClientImpl, I32(t.width), I32(t.height))
      .(resource := Some(r), texture := Some(t), released := released, nLocks := 1, dropped := true)
  }

  /**
   * The shm buffer import hands to the renderer, once import is done with
   * it: the shm table with the resource's translated format and stride, its
   * size, both links, dropped, and locked only if the renderer kept a lock
   * (otherwise already destroyed).
   */
  function ShmHandedOver(r: Resource, rendererLocks: bool): BufState
    requires r.shm.Some?
  {
    Lifecycle.Init(ShmClientImpl(ShmFormatToDrm(r.shm.value.format), r.shm.value.stride),
                   r.shm.value.width, r.shm.value.height)
      .(resource := Some(r), shm := r.shm, dropped := true,
        nLocks := if rendererLocks then 1 else 0, destroyed := !rendererLocks)
  }

  /**
   * The shm branch of import: wrap the resource in a shm buffer, lock it and
   * drop it, hand it to the renderer (which may take a lock of its own), then
   * unlock it.
   */
  method ImportShm(r: Resource, rendererLocks: bool, log: Log) returns (shmb: Buffer)
    requires r.shm.Some?
    modifies log
    ensures fresh(shmb) && shmb.Valid() && shmb.dropped && shmb.resource == Some(r)
    ensures shmb.nLocks == (if rendererLocks then 1 else 0)
    ensures shmb.State() == ShmHandedOver(r, rendererLocks)
    ensures log.events == old(log.events)
                          + (if rendererLocks then [] else [Release(shmb), SendRelease(r.id), Destroy(shmb)])
  {
    shmb := ShmClientBufferCreate(r);
    ghost var s0 := shmb.State();
    // Lock before dropping, so that the unlock below releases before it can destroy.
    var _ := Buffers.Lock(shmb);
    Buffers.Drop(shmb, log);
    assert shmb.State() == s0.(nLocks := 1, dropped := true);
    if rendererLocks {
      var _ := Buffers.Lock(shmb);
    }
    ghost var s1 := shmb.State();
    Buffers.Unlock(shmb, log);
    if !rendererLocks {
      assert ReleaseListener(s1.(nLocks := 0)).events == [SendRelease(r.id)];
      assert DestroyCallback(s1.(nLocks := 0)) == [];
      assert Lifecycle.Unlock(s1, shmb).events == [Release(shmb), SendRelease(r.id), Destroy(shmb)];
    }
  }

  /**
   * wlr_client_buffer_import. `upload` is what the renderer's texture
   * import returns for the branch taken; `rendererLocks` whether, for a shm
   * resource, the renderer keeps its own lock on the shm buffer it was given.
   * Besides the client buffer, the shm buffer handed to the renderer is
   * returned (null for other kinds), since the renderer owns it from then on.
   */
  method Import(r: Resource, upload: Option<Texture>, rendererLocks: bool, log: Log)
    returns (cb: Buffer?, shmb: Buffer?)
    requires r.isBuffer
    modifies log
    ensures cb != null <==> Classify(r, upload.Some?) != UnknownKind && upload.Some?
    ensures cb != null ==> fresh(cb) && cb.Valid()
    ensures cb != null ==> cb.State() == Imported(r, upload.value, ReleaseDelegated(Classify(r, upload.Some?)))
    ensures shmb != null <==> r.shm.Some?
    ensures shmb != null ==> fresh(shmb) && shmb.Valid() && shmb.dropped && shmb.resource == Some(r)
    ensures shmb != null ==> shmb.nLocks == (if rendererLocks then 1 else 0)
    ensures shmb != null ==> shmb.State() == ShmHandedOver(r, rendererLocks)
    ensures log.events == old(log.events) + ImportEvents(r, upload, rendererLocks, shmb)
  {
    var texture: Option<Texture> := None;
    var resourceReleased := false;
    shmb := null;
    cb := null;

    if r.shm.Some? {
      shmb := ImportShm(r, rendererLocks, log);
      texture := upload;
      // The release is now the renderer's to send, not the client buffer's.
      resourceReleased := true;
    } else if r.wlDrm.Some? {
      texture := upload;
    } else if r.dmabuf.Some? {
      texture := upload;
      resourceReleased := true;
    } else if upload.Some? {
      texture := upload;
    } else {
      log.Emit(PostError(r.id, 0));
      return;
    }

    if texture.None? {
      log.Emit(SendRelease(r.id));
      return;
    }

    cb := NewClientBuffer(r, texture.value, resourceReleased, log);
  }

  /**
   * The tail of import: a client buffer for the uploaded texture, locked
   * for the caller and dropped by its producer.
   */
  method NewClientBuffer(r: Resource, t: Texture, resourceReleased: bool, log: Log) returns (cb: Buffer)
    modifies log
    ensures fresh(cb) && cb.Valid() && cb.State() == Imported(r, t, resourceReleased)
    ensures log.events == old(log.events)
  {
    Lifecycle.ConcreteTablesWellFormed(0, 0);
    cb := new Buffer.Init(ClientImpl, I32(t.width), I32(t.height));
    cb.resource := Some(r);
    cb.texture := Some(t);
    cb.resourceReleased := resourceReleased;
    // The caller's lock; dropping now leaves the caller's unlock to release and destroy.
    var _ := Buffers.Lock(cb);
    Buffers.Drop(cb, log);
  }

  // ---------------------------------------------------------------------
  // The damage fast path

  /** Why apply_damage gives up, in the order it checks. */
  datatype DamageCheck = Eligible | TooManyLocks | NotShm | FormatMismatch | SizeMismatch

  /** wl_shm_buffer_get on the buffer's current resource, which may be gone. */
  function CurrentShm(current: Option<Resource>): Option<ShmInfo> {
    if current.Some? then current.value.shm else None
  }

  /**
   * The four checks of apply_damage, in order: no other consumer, both
   * resources shm, same wire format, the new buffer's size (as uint32_t)
   * equal to the texture's.
   */
  function CheckDamage(nLocks: nat, current: Option<Resource>, r: Resource, t: Texture): (c: DamageCheck)
    ensures c == TooManyLocks <==> nLocks > 1
    ensures c == NotShm <==> nLocks <= 1 && (r.shm.None? || CurrentShm(current).None?)
    ensures c == FormatMismatch <==>
              nLocks <= 1 && r.shm.Some? && CurrentShm(current).Some?
              && r.shm.value.format != CurrentShm(current).value.format
    ensures c == Eligible <==>
              && nLocks <= 1 && r.shm.Some? && CurrentShm(current).Some?
              && r.shm.value.format == CurrentShm(current).value.format
              && U32(r.shm.value.width) == t.width && U32(r.shm.value.height) == t.height
  {
    if nLocks > 1 then TooManyLocks
    else if r.shm.None? || CurrentShm(current).None? then NotShm
    else if r.shm.value.format != CurrentShm(current).value.format then FormatMismatch
    else if U32(r.shm.value.width) != t.width || U32(r.shm.value.height) != t.height then SizeMismatch
    else Eligible
  }

  /** The wlr_texture_write_pixels call for one damage box, copied to the same place. */
  function WriteEvent(t: Texture, stride: int, data: nat, box: Rect, ok: bool): Event {
    WritePixels(t, stride, box.x2 - box.x1, box.y2 - box.y1, box.x1, box.y1, box.x1, box.y1, data, ok)
  }

  /**
   * The writes of the upload loop over `boxes`: each box is written in
   * order, and the loop stops right after the first write that fails.
   * Returns whether every write succeeded, and the writes made.
   */
  function Uploads(t: Texture, stride: int, data: nat, boxes: seq<Rect>, writeOk: Rect -> bool): (bool, seq<Event>)
    decreases |boxes|
  {
    if boxes == [] then (true, [])
    else
      var p := Uploads(t, stride, data, boxes[..|boxes| - 1], writeOk);
      if !p.0 then p
      else
        var last := boxes[|boxes| - 1];
        (writeOk(last), p.1 + [WriteEvent(t, stride, data, last, writeOk(last))])
  }

  /**
   * What the upload loop does: it succeeds exactly when every box is
   * written; it writes the boxes in order, one call each, and stops right
   * after the first write that fails.
   */
  lemma {:induction false} UploadsMeaning(t: Texture, stride: int, data: nat, boxes: seq<Rect>, writeOk: Rect -> bool)
    ensures var u := Uploads(t, stride, data, boxes, writeOk);
            && (u.0 <==> forall i | 0 <= i < |boxes| :: writeOk(boxes[i]))
            && |u.1| <= |boxes| && (u.0 ==> |u.1| == |boxes|)
            && (forall i | 0 <= i < |u.1| :: u.1[i] == WriteEvent(t, stride, data, boxes[i], writeOk(boxes[i])))
            && (forall i | 0 <= i < |u.1| - 1 :: writeOk(boxes[i]))
            && (!u.0 ==> |u.1| > 0 && !writeOk(boxes[|u.1| - 1]))
    decreases |boxes|
  {
    if boxes != [] {
      var init := boxes[..|boxes| - 1];
      UploadsMeaning(t, stride, data, init, writeOk);
      assert forall i | 0 <= i < |init| :: init[i] == boxes[i];
    }
  }

  /** Whether apply_damage succeeds on a buffer in state `s`. */
  predicate DamageApplies(s: BufState, r: Resource, damage: seq<Rect>, writeOk: Rect -> bool)
    requires s.texture.Some?
  {
    && CheckDamage(s.nLocks, s.resource, r, s.texture.value) == Eligible
    && Uploads(s.texture.value, r.shm.value.stride as int, r.shm.value.data, damage, writeOk).0
  }

  /**
   * The events of apply_damage: none when a check fails; otherwise the
   * uploads bracketed by begin/end access on the new shm buffer, and on
   * success a release of the new resource.
   */
  function DamageEvents(s: BufState, r: Resource, damage: seq<Rect>, writeOk: Rect -> bool): seq<Event>
    requires s.texture.Some?
  {
    if CheckDamage(s.nLocks, s.resource, r, s.texture.value) != Eligible then []
    else
      var u := Uploads(s.texture.value, r.shm.value.stride as int, r.shm.value.data, damage, writeOk);
      [ShmBeginAccess(r.id)] + u.1 + [ShmEndAccess(r.id)] + (if u.0 then [SendRelease(r.id)] else [])
  }

  /**
   * wlr_client_buffer_apply_damage. `writeOk` is the renderer's answer to
   * writing one box. On success the same buffer is returned, now bound to the
   * new resource, whose release has been sent; on failure null is returned
   * and the buffer is as it was.
   */
  method ApplyDamage(b: Buffer, r: Resource, damage: seq<Rect>, writeOk: Rect -> bool, log: Log)
    returns (res: Buffer?)
    requires b.Valid() && !b.destroyed && b.impl.ClientImpl? && b.texture.Some? && r.isBuffer
    modifies b, log
    ensures b.Valid()
    ensures res != null <==> DamageApplies(old(b.State()), r, damage, writeOk)
    ensures res != null ==> res == b && b.State() == old(b.State()).(resource := Some(r), released := true)
    ensures res == null ==> b.State() == old(b.State())
    ensures log.events == old(log.events) + DamageEvents(old(b.State()), r, damage, writeOk)
  {
    var texture := b.texture.value;
    if b.nLocks > 1 {
      // Another consumer holds the buffer.
      return null;
    }
    var shmBuf := r.shm;
    var oldShmBuf := CurrentShm(b.resource);
    if shmBuf.None? || oldShmBuf.None? {
      return null;
    }
    if shmBuf.value.format != oldShmBuf.value.format {
      return null;
    }
    var stride := shmBuf.value.stride as int;
    var width := shmBuf.value.width;
    var height := shmBuf.value.height;
    if U32(width) != texture.width || U32(height) != texture.height {
      return null;
    }

    ghost var s0 := b.State();
    assert CheckDamage(s0.nLocks, s0.resource, r, texture) == Eligible;
    ghost var u := Uploads(texture, stride, shmBuf.value.data, damage, writeOk);
    var ok := UploadShm(texture, r, damage, writeOk, log);
    if !ok {
      assert DamageEvents(s0, r, damage, writeOk) == [ShmBeginAccess(r.id)] + u.1 + [ShmEndAccess(r.id)];
      return null;
    }
    assert DamageApplies(s0, r, damage, writeOk);

    // All boxes are in the texture: the client may reuse the new wl_buffer.
    log.Emit(SendRelease(r.id));
    b.resource := Some(r);
    b.resourceReleased := true;
    return b;
  }

  /** The damage upload of apply_damage, bracketed by begin and end of access on the new shm buffer. */
  method UploadShm(t: Texture, r: Resource, damage: seq<Rect>, writeOk: Rect -> bool, log: Log) returns (ok: bool)
    requires r.shm.Some?
    modifies log
    ensures var u := Uploads(t, r.shm.value.stride as int, r.shm.value.data, damage, writeOk);
            && ok == u.0
            && log.events == old(log.events) + [ShmBeginAccess(r.id)] + u.1 + [ShmEndAccess(r.id)]
  {
    log.Emit(ShmBeginAccess(r.id));
    var data := r.shm.value.data;
    ok := WriteDamage(t, r.shm.value.stride as int, data, damage, writeOk, log);
    log.Emit(ShmEndAccess(r.id));
  }

  /**
   * The upload loop of apply_damage: writes the damage boxes in order,
   * giving up at the first write that fails.
   */
  method WriteDamage(t: Texture, stride: int, data: nat, damage: seq<Rect>, writeOk: Rect -> bool, log: Log)
    returns (ok: bool)
    modifies log
    ensures ok == Uploads(t, stride, data, damage, writeOk).0
    ensures log.events == old(log.events) + Uploads(t, stride, data, damage, writeOk).1
  {
    var i := 0;
    while i < |damage|
      invariant 0 <= i <= |damage|
      invariant Uploads(t, stride, data, damage[..i], writeOk).0
      invariant log.events == old(log.events) + Uploads(t, stride, data, damage[..i], writeOk).1
    {
      var box := damage[i];
      var boxOk := writeOk(box);
      UploadsMeaning(t, stride, data, damage[..i], writeOk);
      ghost var done := Uploads(t, stride, data, damage[..i], writeOk);
      log.Emit(WriteEvent(t, stride, data, box, boxOk));
      assert damage[..i + 1][..i] == damage[..i];
      assert Uploads(t, stride, data, damage[..i + 1], writeOk)
             == (boxOk, done.1 + [WriteEvent(t, stride, data, box, boxOk)]);
      if !boxOk {
        UploadsStop(t, stride, data, damage, writeOk, i + 1);
        return false;
      }
      i := i + 1;
    }
    assert damage[..i] == damage;
    return true;
  }

  /** The loop stops at the first failing box: the writes up to it are all there is. */
  lemma UploadsStop(t: Texture, stride: int, data: nat, boxes: seq<Rect>, writeOk: Rect -> bool, k: nat)
    requires 0 < k <= |boxes| && !writeOk(boxes[k - 1])
    requires forall i | 0 <= i < k - 1 :: writeOk(boxes[i])
    ensures Uploads(t, stride, data, boxes, writeOk) == Uploads(t, stride, data, boxes[..k], writeOk)
    decreases |boxes| - k
  {
    if k < |boxes| {
      var shorter := boxes[..|boxes| - 1];
      assert shorter[..k] == boxes[..k];
      UploadsStop(t, stride, data, shorter, writeOk, k);
      UploadsMeaning(t, stride, data, shorter, writeOk);
    } else {
      assert boxes[..k] == boxes;
    }
  }

  // ---------------------------------------------------------------------
  // What the client hears

  /**
   * An import that returns no client buffer still answers the client: an
   * unrecognised resource gets exactly one protocol error, a failed upload a
   * release. A shm resource whose upload fails is released twice: once by the
   * intermediate shm buffer's release listener when the final unlock
   * destroys it (the renderer kept no lock), and once more on the failure path.
   */
  lemma {:induction false} FailedImportAnswered(r: Resource, rendererLocks: bool, shmb: object?)
    requires r.shm.Some? ==> shmb != null
    ensures var es := ImportEvents(r, None, rendererLocks, shmb);
            var k := Classify(r, false);
            && Count(es, PostError(r.id, 0)) == (if k == UnknownKind then 1 else 0)
            && Count(es, SendRelease(r.id)) ==
                 (if k == UnknownKind then 0 else if k == ShmKind && !rendererLocks then 2 else 1)
  {
    var es := ImportEvents(r, None, rendererLocks, shmb);
    var k := Classify(r, false);
    if k == ShmKind {
      var first := if rendererLocks then [] else [Release(shmb), SendRelease(r.id), Destroy(shmb)];
      assert es == first + [SendRelease(r.id)];
      CountAppend(first, [SendRelease(r.id)], SendRelease(r.id));
      CountAppend(first, [SendRelease(r.id)], PostError(r.id, 0));
      if !rendererLocks {
        assert first == [Release(shmb)] + [SendRelease(r.id)] + [Destroy(shmb)];
        CountAppend([Release(shmb)] + [SendRelease(r.id)], [Destroy(shmb)], SendRelease(r.id));
        CountAppend([Release(shmb)], [SendRelease(r.id)], SendRelease(r.id));
        CountAppend([Release(shmb)] + [SendRelease(r.id)], [Destroy(shmb)], PostError(r.id, 0));
        CountAppend([Release(shmb)], [SendRelease(r.id)], PostError(r.id, 0));
      }
    }
  }

  /** The caller's unlock of an imported buffer: release, then destroy, then the texture goes. */
  lemma ImportedUnlock(r: Resource, t: Texture, released: bool, b: object)
    ensures var u := Lifecycle.Unlock(Imported(r, t, released), b);
            && u.state.destroyed
            && u.events == [Release(b)] + (if released then [] else [SendRelease(r.id)])
                           + [Destroy(b), TextureDestroy(t)]
  {
    var s := Imported(r, t, released);
    assert ReleaseListener(s.(nLocks := 0)).state == s.(nLocks := 0, released := true);
  }

  /** A successful import releases the client's wl_buffer only through an unlocked shm buffer. */
  lemma {:induction false} ImportedEventsReleases(r: Resource, t: Texture, rendererLocks: bool, shmb: object?)
    requires r.shm.Some? ==> shmb != null
    ensures Count(ImportEvents(r, Some(t), rendererLocks, shmb), SendRelease(r.id))
            == (if r.shm.Some? && !rendererLocks then 1 else 0)
  {
    var es := ImportEvents(r, Some(t), rendererLocks, shmb);
    if r.shm.Some? && !rendererLocks {
      assert es == [Release(shmb)] + [SendRelease(r.id)] + [Destroy(shmb)];
      CountAppend([Release(shmb)] + [SendRelease(r.id)], [Destroy(shmb)], SendRelease(r.id));
      CountAppend([Release(shmb)], [SendRelease(r.id)], SendRelease(r.id));
    } else {
      assert es == [];
    }
  }

  /**
   * The client buffer an import returns holds the caller's only lock: the
   * caller's unlock destroys it and its texture. Over the import and that
   * unlock, the client hears exactly one release of its wl_buffer, unless the
   * renderer owes it that release (a dmabuf, or a shm buffer the renderer
   * kept locked).
   */
  lemma {:induction false} ImportedReleasedOnce(r: Resource, t: Texture, rendererLocks: bool, shmb: object?, b: object)
    requires r.shm.Some? ==> shmb != null
    ensures var k := Classify(r, true);
            var u := Lifecycle.Unlock(Imported(r, t, ReleaseDelegated(k)), b);
            && u.state.destroyed
            && TextureDestroy(t) in u.events
            && Count(ImportEvents(r, Some(t), rendererLocks, shmb) + u.events, SendRelease(r.id))
               == (if k == DmabufKind || (k == ShmKind && rendererLocks) then 0 else 1)
  {
    var k := Classify(r, true);
    var released := ReleaseDelegated(k);
    var u := Lifecycle.Unlock(Imported(r, t, released), b);
    ImportedUnlockReleases(r, t, released, b);
    ImportedEventsReleases(r, t, rendererLocks, shmb);
    CountAppend(ImportEvents(r, Some(t), rendererLocks, shmb), u.events, SendRelease(r.id));
  }

  /** The caller's unlock of an imported buffer sends the client a release exactly when one is owed. */
  lemma {:induction false} ImportedUnlockReleases(r: Resource, t: Texture, released: bool, b: object)
    ensures var u := Lifecycle.Unlock(Imported(r, t, released), b);
            && u.state.destroyed && TextureDestroy(t) in u.events
            && Count(u.events, SendRelease(r.id)) == if released then 0 else 1
  {
    ImportedUnlock(r, t, released, b);
    var u := Lifecycle.Unlock(Imported(r, t, released), b);
    var rel: seq<Event> := if released then [] else [SendRelease(r.id)];
    var tail := [Destroy(b), TextureDestroy(t)];
    assert u.events == [Release(b)] + rel + tail;
    assert TextureDestroy(t) == u.events[|u.events| - 1];
    CountAppend([Release(b)] + rel, tail, SendRelease(r.id));
    CountAppend([Release(b)], rel, SendRelease(r.id));
    CountAbsent(tail, SendRelease(r.id));
    CountAbsent([Release(b)], SendRelease(r.id));
    assert Count(rel, SendRelease(r.id)) == (if released then 0 else 1);
  }

  /**
   * apply_damage brackets its writes with exactly one begin and one end of
   * access on the new shm buffer whenever it gets past its checks, and with
   * neither otherwise.
   */
  lemma {:induction false} DamageAccessBalanced(s: BufState, r: Resource, damage: seq<Rect>, writeOk: Rect -> bool)
    requires s.texture.Some?
    ensures var es := DamageEvents(s, r, damage, writeOk);
            var eligible := CheckDamage(s.nLocks, s.resource, r, s.texture.value) == Eligible;
            && Count(es, ShmBeginAccess(r.id)) == (if eligible then 1 else 0)
            && Count(es, ShmEndAccess(r.id)) == (if eligible then 1 else 0)
  {
    if CheckDamage(s.nLocks, s.resource, r, s.texture.value) == Eligible {
      var u := Uploads(s.texture.value, r.shm.value.stride as int, r.shm.value.data, damage, writeOk);
      var tail: seq<Event> := if u.0 then [SendRelease(r.id)] else [];
      UploadsOnlyWrite(s.texture.value, r.shm.value.stride as int, r.shm.value.data, damage, writeOk);
      CountAbsent(u.1, ShmBeginAccess(r.id));
      CountAbsent(u.1, ShmEndAccess(r.id));
      CountAbsent(tail, ShmBeginAccess(r.id));
      CountAbsent(tail, ShmEndAccess(r.id));
      var ev := ShmBeginAccess(r.id);
      CountAppend([ShmBeginAccess(r.id)] + u.1 + [ShmEndAccess(r.id)], tail, ev);
      CountAppend([ShmBeginAccess(r.id)] + u.1, [ShmEndAccess(r.id)], ev);
      CountAppend([ShmBeginAccess(r.id)], u.1, ev);
      ev := ShmEndAccess(r.id);
      CountAppend([ShmBeginAccess(r.id)] + u.1 + [ShmEndAccess(r.id)], tail, ev);
      CountAppend([ShmBeginAccess(r.id)] + u.1, [ShmEndAccess(r.id)], ev);
      CountAppend([ShmBeginAccess(r.id)], u.1, ev);
    }
  }

  /** apply_damage sends the new resource exactly one release exactly when it succeeds. */
  lemma {:induction false} DamageReleasedOnSuccess(s: BufState, r: Resource, damage: seq<Rect>, writeOk: Rect -> bool)
    requires s.texture.Some?
    ensures Count(DamageEvents(s, r, damage, writeOk), SendRelease(r.id))
            == (if DamageApplies(s, r, damage, writeOk) then 1 else 0)
  {
    if CheckDamage(s.nLocks, s.resource, r, s.texture.value) == Eligible {
      var u := Uploads(s.texture.value, r.shm.value.stride as int, r.shm.value.data, damage, writeOk);
      var tail: seq<Event> := if u.0 then [SendRelease(r.id)] else [];
      UploadsOnlyWrite(s.texture.value, r.shm.value.stride as int, r.shm.value.data, damage, writeOk);
      CountAbsent(u.1, SendRelease(r.id));
      var head := [ShmBeginAccess(r.id)] + u.1 + [ShmEndAccess(r.id)];
      assert SendRelease(r.id) !in head;
      CountAbsent(head, SendRelease(r.id));
      CountAppend(head, tail, SendRelease(r.id));
    }
  }

  /** The upload loop makes no call but texture writes. */
  lemma UploadsOnlyWrite(t: Texture, stride: int, data: nat, boxes: seq<Rect>, writeOk: Rect -> bool)
    ensures forall e <- Uploads(t, stride, data, boxes, writeOk).1 :: e.WritePixels?
  {
    UploadsMeaning(t, stride, data, boxes, writeOk);
    var u := Uploads(t, stride, data, boxes, writeOk);
    forall e | e in u.1
      ensures e.WritePixels?
    {
    }
  }

  /** A successful apply_damage rewrites every damage box of the new buffer, in order. */
  lemma DamageWritesEveryBox(s: BufState, r: Resource, damage: seq<Rect>, writeOk: Rect -> bool)
    requires s.texture.Some? && DamageApplies(s, r, damage, writeOk)
    ensures var es := DamageEvents(s, r, damage, writeOk);
            && |es| == |damage| + 3
            && es[0] == ShmBeginAccess(r.id) && es[|damage| + 1] == ShmEndAccess(r.id)
            && es[|damage| + 2] == SendRelease(r.id)
            && forall i | 0 <= i < |damage| ::
                 es[i + 1] == WriteEvent(s.texture.value, r.shm.value.stride as int, r.shm.value.data, damage[i], true)
  {
    UploadsMeaning(s.texture.value, r.shm.value.stride as int, r.shm.value.data, damage, writeOk);
  }

  /**
   * After a successful apply_damage the client buffer owns the new resource,
   * already released: the last unlock destroys the buffer without releasing
   * that resource a second time.
   */
  lemma {:induction false} DamagedBufferReleasedOnce(s: BufState, r: Resource, damage: seq<Rect>, writeOk: Rect -> bool, b: object)
    requires Inv(s) && s.impl.ClientImpl? && s.dropped && !s.destroyed && s.texture.Some?
    requires DamageApplies(s, r, damage, writeOk)
    ensures var u := Lifecycle.Unlock(s.(resource := Some(r), released := true), b);
            && u.state.destroyed
            && Count(DamageEvents(s, r, damage, writeOk) + u.events, SendRelease(r.id)) == 1
  {
    var s' := s.(resource := Some(r), released := true);
    var u := Lifecycle.Unlock(s', b);
    assert s.nLocks == 1;
    assert u.events == [Release(b), Destroy(b), TextureDestroy(s.texture.value)];
    CountAbsent(u.events, SendRelease(r.id));
    DamageReleasedOnSuccess(s, r, damage, writeOk);
    CountAppend(DamageEvents(s, r, damage, writeOk), u.events, SendRelease(r.id));
  }
}
