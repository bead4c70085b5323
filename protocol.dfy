/**
 * The collaborators the buffer layer talks to, reduced to values: client
 * wl_buffer resources (with the answers each classification probe gives for
 * them), renderer textures, damage rectangles, and the ordered trace of the
 * signals the layer emits and the calls it makes into libwayland and the
 * renderer.
 */
module Protocol {

  datatype Option<+T> = None | Some(value: T)

  /** C's uint32_t and int32_t. */
  type u32 = x: int | 0 <= x < 0x1_0000_0000
  type i32 = x: int | -0x8000_0000 <= x < 0x8000_0000

  /** The conversion `(uint32_t)x` of an int32_t. */
  function U32(x: i32): (r: u32)
    ensures x >= 0 ==> r == x
    ensures x < 0 ==> r == x + 0x1_0000_0000
  {
    x % 0x1_0000_0000
  }

  /** The conversion of a uint32_t into a C `int` (two's complement). */
  function I32(x: u32): (r: i32)
    ensures U32(r) == x
  {
    if x < 0x8000_0000 then x else x - 0x1_0000_0000
  }

  /**
   * What the wl_shm_buffer accessors report for a shared-memory buffer:
   * wire format, size, stride, the address of its pixels and the pool the
   * memory belongs to.
   */
  datatype ShmInfo = ShmInfo(format: u32, width: i32, height: i32, stride: i32, data: nat, pool: nat)

  datatype Size = Size(width: int, height: int)

  /** DMA-BUF attributes; the plane descriptors are opaque here. */
  datatype DmabufAttributes = DmabufAttributes(width: int, height: int, format: u32, planes: seq<nat>)

  /**
   * A client wl_resource together with the answers of the probes that
   * classify it: `isBuffer` is wlr_resource_is_buffer, `shm` is
   * wl_shm_buffer_get, `wlDrm` is the renderer's wl_drm recognition (with
   * the size it reports), `dmabuf` is the linux-dmabuf lookup and
   * `bufferParams` is wlr_renderer_wl_buffer_get_params.
   */
  datatype Resource = Resource(
    id: nat,
    isBuffer: bool,
    shm: Option<ShmInfo>,
    wlDrm: Option<Size>,
    dmabuf: Option<DmabufAttributes>,
    bufferParams: Option<Size>)

  /** A renderer texture: its identity and its unsigned dimensions. */
  datatype Texture = Texture(id: nat, width: u32, height: u32)

  /** A pixman box: the half-open rectangle [x1, x2) x [y1, y2). */
  datatype Rect = Rect(x1: int, y1: int, x2: int, y2: int)

  /** What a successful data-pointer access session hands out. */
  datatype Access = Access(data: nat, format: u32, stride: int)

  /**
   * One observable step: a buffer signal, or a call into libwayland or the
   * renderer, in the order it happens.
   */
  datatype Event =
    | Release(buffer: object)                  // buffer->events.release emitted
    | Destroy(buffer: object)                  // buffer->events.destroy emitted
    | SendRelease(resource: nat)               // wl_buffer_send_release
    | PostError(resource: nat, code: nat)      // wl_resource_post_error
    | TextureDestroy(texture: Texture)         // wlr_texture_destroy
    | PoolRef(pool: nat)                       // wl_shm_buffer_ref_pool
    | PoolUnref(pool: nat)                     // wl_shm_pool_unref
    | ShmBeginAccess(resource: nat)            // wl_shm_buffer_begin_access
    | ShmEndAccess(resource: nat)              // wl_shm_buffer_end_access
    | WritePixels(texture: Texture, stride: int, width: int, height: int,
                  srcX: int, srcY: int, dstX: int, dstY: int, data: nat, ok: bool)

  /** The trace of events, appended to as the buffer layer runs. */
  class Log {
    var events: seq<Event>

    constructor ()
      ensures events == []
    {
      events := [];
    }

    method Emit(e: Event)
      modifies this
      ensures events == old(events) + [e]
    {
      events := events + [e];
    }
  }

  /**
   * The wl_shm wire format to DRM fourcc translation: the two formats that
   * the wl_shm protocol numbers 0 and 1 (argb8888, xrgb8888) get their
   * fourcc codes, every other wl_shm format already is its fourcc code.
   */
  function ShmFormatToDrm(format: u32): (r: u32)
    ensures format == 0 ==> r == 0x34325241
    ensures format == 1 ==> r == 0x34325258
    ensures format > 1 ==> r == format
  {
    if format == 0 then 0x34325241
    else if format == 1 then 0x34325258
    else format
  }

  /**
   * wlr_resource_get_buffer_size: the size of a wl_buffer, taken from the
   * first probe that recognises it (shm, wl_drm, linux-dmabuf, then the
   * renderer's buffer parameters); (false, 0, 0) when none does.
   */
  function ResourceGetBufferSize(r: Resource): (res: (bool, int, int))
    requires r.isBuffer
    ensures res.0 <==> r.shm.Some? || r.wlDrm.Some? || r.dmabuf.Some? || r.bufferParams.Some?
    ensures !res.0 ==> res.1 == 0 && res.2 == 0
    ensures r.shm.Some? ==> res.1 == r.shm.value.width && res.2 == r.shm.value.height
    ensures r.shm.None? && r.wlDrm.Some? ==> res.1 == r.wlDrm.value.width && res.2 == r.wlDrm.value.height
    ensures r.shm.None? && r.wlDrm.None? && r.dmabuf.Some? ==>
              res.1 == r.dmabuf.value.width && res.2 == r.dmabuf.value.height
    ensures r.shm.None? && r.wlDrm.None? && r.dmabuf.None? && r.bufferParams.Some? ==>
              res.1 == r.bufferParams.value.width && res.2 == r.bufferParams.value.height
  {
    if r.shm.Some? then (true, r.shm.value.width as int, r.shm.value.height as int)
    else if r.wlDrm.Some? then (true, r.wlDrm.value.width, r.wlDrm.value.height)
    else if r.dmabuf.Some? then (true, r.dmabuf.value.width, r.dmabuf.value.height)
    else if r.bufferParams.Some? then (true, r.bufferParams.value.width, r.bufferParams.value.height)
    else (false, 0, 0)
  }
}
