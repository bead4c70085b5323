# wlr_buffer ownership layer, in Dafny

This project models the buffer ownership layer of wlroots (the
`types/wlr_buffer.c` file of the EGLStreams fork, and its header):

- the generic `wlr_buffer` lifecycle: a single producer that drops the
  buffer, consumers that lock and unlock it, the release signal when the
  last consumer is done, and destruction once producer and consumers are
  all done;
- exclusive data-pointer access sessions;
- the two client-buffer backends: `wlr_client_buffer`, which wraps a
  texture uploaded from a client `wl_buffer`, and `wlr_shm_client_buffer`,
  which wraps a shared-memory `wl_buffer` and keeps its pixels reachable
  after the client destroys the resource;
- `wlr_client_buffer_import`, which classifies a client resource and
  uploads it, and `wlr_client_buffer_apply_damage`, which re-uploads only
  the damaged rectangles of a new shm buffer.

It has four modules:

- `Protocol` (protocol.dfy) holds the collaborators as values. A client
  `wl_resource` is a record of the answers its classification probes give.
  Textures and damage boxes are records too. `Log` is the ordered trace of
  the signals the layer emits and of the calls it makes into libwayland and
  the renderer.
- `Lifecycle` (lifecycle.dfy) holds the state machine as pure functions.
  Each operation maps the buffer's fields to new fields and to the events it
  emits. The invariant `Inv` is preserved by every operation. Lemmas state
  what holds over any sequence of operations.
- `Buffers` (buffers.dfy) holds the `Buffer` class, whose fields the
  methods update in place as the C code does. Each method is proved to reach
  the state, and to emit the events, that the matching `Lifecycle` function
  gives.
- `ClientImport` (client_import.dfy) holds import and apply_damage, the
  upload loop, and lemmas about what the client hears.

Collaborators whose code is not part of this model become parameters:

- `upload`: the texture the renderer returns, or none;
- `rendererLocks`: whether the renderer keeps a lock on the shm buffer it was given;
- `writeOk`: whether one damage box is written;
- `answer`: what another producer's callback returns.

## Model

| member | source | states |
|---|---|---|
| Lifecycle.ConcreteTablesWellFormed | types/wlr_buffer.c:183-404 | the client table (lines 183-186) and the shm table (lines 400-404) pass init's check; only the client table has get_dmabuf, only the shm table has the begin/end access pair, neither has get_shm |
| Lifecycle.Init | types/wlr_buffer.c:12-24 | init accepts only a well-formed table, stores the size unchanged, and starts with no locks, not dropped, no open session; the result satisfies the invariant |
| Buffers.Buffer.Init | types/wlr_buffer.c:12-24 | the new object's fields are exactly `Lifecycle.Init`, with the zeroes calloc provides set explicitly |
| Lifecycle.ConsiderDestroy | types/wlr_buffer.c:26-36 | destroys exactly when dropped with no locks; requires no open session then; the destroy signal comes first and is followed only by the backend's destroy events; nothing else changes |
| Buffers.ConsiderDestroy | types/wlr_buffer.c:26-36 | the object and the log follow `Lifecycle.ConsiderDestroy` |
| Lifecycle.Drop | types/wlr_buffer.c:38-46 | requires not yet dropped; the buffer ends dropped and nothing else changes except that it is destroyed exactly when it had no locks; then the events are the destroy signal followed by the backend's destroy events, otherwise there are none; no release is emitted |
| Buffers.Drop | types/wlr_buffer.c:38-46 | null is a no-op; otherwise the object and log follow `Lifecycle.Drop` and the invariant is kept |
| Lifecycle.Lock | types/wlr_buffer.c:48-51 | one lock more, nothing else changes, the invariant is kept |
| Buffers.Lock | types/wlr_buffer.c:48-51 | returns the same buffer, with the state of `Lifecycle.Lock` |
| Lifecycle.Unlock | types/wlr_buffer.c:53-66 | requires a lock; one lock fewer; the release signal is emitted exactly when the count reaches zero, and comes first; the buffer is destroyed exactly when that happens to a dropped buffer; above one lock nothing but the count changes |
| Buffers.CountDown | types/wlr_buffer.c:58-63 | one lock fewer, then the release signal and the backend's listener exactly when the count reaches zero |
| Buffers.Unlock | types/wlr_buffer.c:53-66 | null is a no-op; otherwise the object and log follow `Lifecycle.Unlock` and the invariant is kept |
| Lifecycle.ReleaseListener | types/wlr_buffer.c:204-430 | the client backend sends a release only while it has a resource and has not sent one yet, and then records it; no other field changes; the shm backend sends a release whenever its resource still exists, and changes nothing |
| Buffers.ClientBufferHandleRelease | types/wlr_buffer.c:204-212 | object and log follow `Lifecycle.ReleaseListener` |
| Buffers.ShmClientBufferHandleRelease | types/wlr_buffer.c:423-430 | object and log follow `Lifecycle.ReleaseListener` |
| Buffers.EmitRelease | types/wlr_buffer.c:61-63 | the release signal is logged, then the backend's listener runs |
| Lifecycle.DestroyCallback | types/wlr_buffer.c:151-375 | the client backend sends a release, only to its own resource, exactly when one is still owed to an existing resource, and ends by destroying its own texture once when it has one, emitting exactly these events and nothing else; another producer's destroy emits nothing; the shm backend emits exactly the unref of its saved pool when it holds one, and nothing otherwise |
| Buffers.ClientBufferDestroy | types/wlr_buffer.c:151-161 | marks the object destroyed and logs `Lifecycle.DestroyCallback` |
| Buffers.ShmClientBufferDestroy | types/wlr_buffer.c:366-375 | marks the object destroyed and logs `Lifecycle.DestroyCallback` |
| Buffers.ImplDestroy | types/wlr_buffer.c:35 | dispatches `impl->destroy` to the backend |
| Lifecycle.BeginAccess | types/wlr_buffer.c:76-390 | requires no open session; succeeds exactly when the table has the callback and it succeeds; on failure nothing changes; on success only the session flag is set; the shm backend always succeeds with its captured format and stride, and with the live data pointer (marking the shm buffer accessed) while it is attached, else the saved pointer |
| Buffers.BeginDataPtrAccess | types/wlr_buffer.c:76-87 | outputs, object and log follow `Lifecycle.BeginAccess`; the invariant is kept |
| Buffers.ShmClientBufferBeginDataPtrAccess | types/wlr_buffer.c:377-390 | the outputs and log are the shm case of `Lifecycle.BeginAccess` |
| Lifecycle.EndAccess | types/wlr_buffer.c:89-398 | requires an open session and clears only that flag; the shm backend ends access to the shm buffer only while it is attached |
| Buffers.EndDataPtrAccess | types/wlr_buffer.c:89-93 | object and log follow `Lifecycle.EndAccess` |
| Buffers.ShmClientBufferEndDataPtrAccess | types/wlr_buffer.c:392-398 | logs an end of access exactly when the shm buffer is attached |
| Lifecycle.GetDmabuf | types/wlr_buffer.c:68-181 | no callback means no attributes; another producer's callback answers as it likes; a client buffer answers exactly when its resource still exists and is a linux-dmabuf buffer, with that buffer's attributes |
| Buffers.GetDmabuf | include/wlr/types/wlr_buffer.h:86-95 | returns true exactly when `Lifecycle.GetDmabuf` gives attributes, and then those attributes |
| Buffers.ClientBufferGetDmabuf | types/wlr_buffer.c:163-181 | true exactly for a still-existing linux-dmabuf resource, with its attributes |
| Lifecycle.GetShm | types/wlr_buffer.c:95-101 | no callback means false; neither client backend has one |
| Buffers.GetShm | include/wlr/types/wlr_buffer.h:96-105 | returns true exactly when `Lifecycle.GetShm` gives attributes |
| Lifecycle.ResourceDestroyed | types/wlr_buffer.c:188-421 | the client backend only forgets the resource; the shm backend takes a pool reference, saves the data pointer, then forgets the resource and the shm buffer; nothing else changes (table, size, locks, flags, texture) and the invariant is kept |
| Buffers.ClientBufferResourceHandleDestroy | types/wlr_buffer.c:188-202 | object follows `Lifecycle.ResourceDestroyed`, nothing is logged |
| Buffers.ShmClientBufferResourceHandleDestroy | types/wlr_buffer.c:406-421 | object and log follow `Lifecycle.ResourceDestroyed` |
| Buffers.ShmClientBufferCreate | types/wlr_buffer.c:432-459 | a fresh valid buffer with the shm table, the shm size, the translated format and the stride, linked to the resource and its shm buffer |
| Buffers.ClientBufferGet | types/wlr_buffer.c:137-142 | returns the buffer itself exactly when it uses the client table, null otherwise |
| Protocol.ResourceGetBufferSize | types/wlr_buffer.c:107-133 | the size from the first probe that recognises the resource, in the order shm, wl_drm, linux-dmabuf, buffer parameters; false with a zero size when none does |
| Protocol.ShmFormatToDrm | types/wlr_buffer.c:449 | argb8888 and xrgb8888 map to their fourcc codes, every other format is unchanged |
| Protocol.I32 | types/wlr_buffer.c:275-276 | the texture's unsigned size passed as `int` converts back to the same unsigned value |
| Lifecycle.Apply | include/wlr/types/wlr_buffer.h:63-85 | every operation allowed by the C assertions keeps the invariant |
| Lifecycle.Run | include/wlr/types/wlr_buffer.h:37-44 | any sequence of allowed operations keeps the invariant and the table |
| Lifecycle.NothingAfterDestroy | types/wlr_buffer.c:26-36 | no operation is allowed on a destroyed buffer |
| Lifecycle.LockBalance | include/wlr/types/wlr_buffer.h:75-85 | the lock count is the initial one plus the locks minus the unlocks |
| Lifecycle.DroppedIff | types/wlr_buffer.c:38-46 | a buffer ends dropped exactly when it started dropped or was dropped |
| Lifecycle.SecondDropRejected | types/wlr_buffer.c:43 | after a drop, a second drop is never allowed |
| Lifecycle.DestroyedIffDroppedAndBalanced | include/wlr/types/wlr_buffer.h:37-44 | a buffer ends destroyed exactly when it was dropped and every lock was matched by an unlock |
| Lifecycle.ApplyDestroyCount | types/wlr_buffer.c:26-36 | one operation emits the destroy signal exactly when it destroys the buffer |
| Lifecycle.DestroyAtMostOnce | types/wlr_buffer.c:26-36 | over any run the destroy signal fires at most once, and exactly once when the buffer ends destroyed |
| Lifecycle.ApplyReleaseCount | types/wlr_buffer.c:53-66 | one operation emits a release only by consuming the last lock |
| Lifecycle.ReleasesPaidByLocks | include/wlr/types/wlr_buffer.h:37-44 | the releases, plus one if the buffer ends locked, never exceed the locks taken, plus one if it started locked |
| Lifecycle.ApplyClientSendCount | types/wlr_buffer.c:151-161 | one operation on a client buffer sends a resource a release only by paying the release it owes |
| Lifecycle.ClientReleaseAtMostOnce | types/wlr_buffer.c:204-212 | a client buffer sends any resource at most one release over any run, and none once it has sent one or lost the resource |
| Lifecycle.ApplyPoolCount | types/wlr_buffer.c:366-421 | one operation on a shm buffer takes and drops pool references in balance with the reference it holds |
| Lifecycle.PoolDestroyCount | types/wlr_buffer.c:366-375 | destroying a shm buffer drops the pool reference it holds and takes none |
| Lifecycle.PoolReferencesBalanced | types/wlr_buffer.c:366-421 | over any run of a shm buffer, pool references taken plus the one held at the start equal those dropped plus the one held at the end |
| Lifecycle.ShmSavedDataStable | types/wlr_buffer.c:406-421 | once a shm buffer's resource is gone, the resource and shm buffer stay gone and the saved pool and pointer never change |
| Lifecycle.ShmAccessSurvivesResourceDestroy | types/wlr_buffer.c:377-390 | after the client destroys a shm buffer's resource, later access sessions still succeed, with the pointer saved at that moment and the captured format and stride |
| ClientImport.Classify | types/wlr_buffer.c:221-260 | the import branch is chosen in the order shm, wl_drm, linux-dmabuf, EGLStream, with an unknown type last; each branch is stated as an if-and-only-if |
| ClientImport.Imported | types/wlr_buffer.c:268-291 | a successful import's buffer: client table, one lock, dropped, no session, the texture's size, the resource and texture bound |
| ClientImport.ImportShm | types/wlr_buffer.c:221-240 | the shm buffer is locked, dropped and unlocked around the upload; it stays alive with one lock exactly when the renderer kept one, otherwise it is released (sending the client a release) and destroyed; its full state is the shm table with the resource's translated format and stride, its size and both links |
| ClientImport.NewClientBuffer | types/wlr_buffer.c:268-291 | the new client buffer is in the `Imported` state (one lock, dropped, texture and resource bound) and nothing is logged |
| ClientImport.Import | types/wlr_buffer.c:214-292 | a buffer is returned exactly when the resource is recognised and the upload succeeds; it is the `Imported` state, with the release delegated exactly for shm and dmabuf; the shm buffer handed to the renderer has the full state `ImportShm` states; the log holds the protocol error, the failed-upload release and the shm buffer's events |
| ClientImport.FailedImportAnswered | types/wlr_buffer.c:253-266 | an unknown resource gets exactly one protocol error and no release; a failed upload gets one release, or two for shm when the renderer kept no lock |
| ClientImport.ImportedUnlock | include/wlr/types/wlr_buffer.h:147-153 | the caller's unlock of an imported buffer emits release, then any owed client release, then destroy and the texture's destruction, and destroys the buffer |
| ClientImport.ImportedUnlockReleases | types/wlr_buffer.c:151-161 | the caller's unlock destroys the buffer and its texture, and sends the client a release exactly when one is owed |
| ClientImport.ImportedEventsReleases | types/wlr_buffer.c:221-240 | a successful import releases the client's resource only through an unlocked shm buffer |
| ClientImport.ImportedReleasedOnce | include/wlr/types/wlr_buffer.h:147-153 | over a successful import and the caller's unlock, the buffer and its texture are destroyed and the client hears exactly one release, unless the renderer owes it (dmabuf, or shm the renderer kept locked) |
| ClientImport.CheckDamage | types/wlr_buffer.c:299-326 | apply_damage's four checks in order: at most one lock, both resources shm, same format, the new size as uint32_t equal to the texture's; each outcome as an if-and-only-if |
| ClientImport.UploadsMeaning | types/wlr_buffer.c:331-341 | the writes succeed exactly when every box is written; the writes made are one per box, in order, stopping right after the first failure |
| ClientImport.UploadsStop | types/wlr_buffer.c:330-335 | the upload of a prefix ending at the first failing box is the upload of the whole region |
| ClientImport.WriteDamage | types/wlr_buffer.c:331-341 | the loop's result and its log are those of `Uploads` |
| ClientImport.ApplyDamage | types/wlr_buffer.c:294-356 | returns the same buffer exactly when the checks pass and every box is written; then it is rebound to the new resource, marked released; otherwise nothing changes; the log is `DamageEvents` |
| ClientImport.DamageAccessBalanced | types/wlr_buffer.c:323-343 | begin and end of access on the new shm buffer occur once each whenever the checks pass, on every exit, and never otherwise |
| ClientImport.DamageReleasedOnSuccess | types/wlr_buffer.c:345-347 | the new resource gets exactly one release exactly when apply_damage succeeds |
| ClientImport.UploadShm | types/wlr_buffer.c:323-343 | the upload loop runs between one begin and one end of access, whatever its outcome |
| ClientImport.DamageWritesEveryBox | types/wlr_buffer.c:323-345 | on success every damage box is written, in order, between the begin and end of access, followed by the release |
| ClientImport.DamagedBufferReleasedOnce | types/wlr_buffer.c:345-355 | after a successful apply_damage the last unlock destroys the buffer without releasing the new resource again: the client hears exactly one release for it |

## Left out

- Wayland listener and signal plumbing (`wl_list_*`, `wl_signal_add`, destroy listeners): handlers are called directly and each emission is a log entry.
- The renderer's texture imports, `wlr_texture_write_pixels` and `wlr_texture_destroy`: these are GPU calls, given as answers (`upload`, `writeOk`) or logged as events.
- The renderer's own use of the shm buffer during upload (its access sessions and its lock) is reduced to `rendererLocks`.
- pixman regions: the damage is the sequence of its boxes.
- Shm pool reference counting and memory mapping: a pool is an identity, and a data pointer is a number.
- The linux-dmabuf attribute contents, which the `memcpy` copies: the plane descriptors are opaque.
- The body of `convert_wl_shm_format_to_drm` is not among the source files modelled; `ShmFormatToDrm` models it from the wl_shm protocol's numbering, in which only argb8888 and xrgb8888 differ from their fourcc codes.
- `wlr_resource_is_buffer` is the abstract flag `isBuffer`, because it compares class names.
- Logging, the `egl_stream` field, and the `calloc` failure paths of import and shm buffer creation.
- include/wlr/render/gles2.h, which holds renderer constructors and GL attributes only.
- ClientImport.ApplyDamage: follows the code, which returns the same buffer. The header's remark that it "destroys the provided buffer" is not modelled.
- The header says a client buffer has no texture once the client destroys its buffer before the release; the code never clears the texture, and the model follows the code: the texture stays bound after `Lifecycle.ResourceDestroyed`.
- ClientImport.WriteEvent: the width and height of a box are unbounded differences, not int32 arithmetic.
- Lifecycle.ResourceDestroyed: when a shm client destroys its resource during an open access session, libwayland's begin/end count on the shm buffer is left unbalanced. The model records the events as the code emits them and does not track that count.
- Buffers.ShmClientBufferEndDataPtrAccess: does not change the session flag. The flag belongs to the generic wrapper, `Buffers.EndDataPtrAccess`.
- Producers other than the two client backends: only their capability table and the answers of their callbacks are modelled.
