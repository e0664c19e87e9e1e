# Verification model of the graphics pass-through

The repository hands the graphics calls of a guest to a device of the host through shared
memory. This project models the shared-memory protocols and the caches and allocators behind
them, and proves what they promise. Library calls (Glide, GL, WGL) are an abstract trace or a
parameter.

- **Glide FIFO** (`words`, `vertex3x`, `glide_calls`, `glide_queue`, `glide_host`,
  `glide_levels`, `glide_guest`, `glide_meaning`, `glide_runs`). One class for the guest
  wrapper, one for the host device, one word array shared by both. The guest's invariant
  couples them: the calls issued are those the host ran followed by those still queued, and the guest's vertex layout is the host's with the queued
  calls applied. Every call's payload is sized twice, by the wrapper and by the host, and the
  two agree for each call kind; from that follow order, framing and cursor agreement over
  every program of calls, that each pointer argument shows the library the memory it named in
  the guest, and that batching cannot be seen by the library.
- **Sparse polygons, frame buffer** (`polygon`, `lfb`). Gather and scatter as a round trip;
  the shadow frame buffer against translating each access.
- **Mapped buffer objects** (`heap_list`, `bufobj`, `memory`, `mapped_buffers`,
  `mesa_buffers`, `gpa_window`). The list of heap nodes refines a finite map. The shadow
  copying is a machine (`Step`) coupled to a reference machine in which the guest writes the
  mapped memory itself (`RefStep`); the class methods are steps of the first. The window
  allocator has its own run-level result.
- **Vertex shadow** (`vertex_arena`, `vertex_push`, `vertex_state`). Arenas keep the distance
  of guest addresses; a draw's index scan and array pushes make the shadow equal guest memory
  wherever the draw reads.
- **Smaller parts** (`gl_contexts`, `tick_timer`, `md5`, `hook`).

Code that updates state in place is a class with methods over its fields, arrays or heap
nodes, each proved equal to a function of the old state; the results over runs are lemmas
about those functions. Machine widths are written out where they matter (32-bit cursors and
sums, the 24-bit counter, 32-bit MD5 words).

Where the code does not do what its setting promises, it is kept as it is and the exact
condition is proved:

- nothing bounds the payload queued in a row: it stays off the output page exactly when the
  program fits (`FitsRunExact`), and 22 downloads of 128 KB do not (`QueuedDownloadsOverrun`);
- a mip-map level download of no bytes has the host write past its payload: every payload of a
  program survives exactly when in no batch payload follows one (`RunSparesExact`,
  `PointBehindEmptyLevel`);
- a frame buffer write is counted without padding, so the leak warning comes for one of an
  odd word count with nothing queued ahead (`Run`, `UncountedExact`, `OneWordWriteLeaks`);
- a frame buffer region reads back only with no payload queued ahead of the call
  (`ReadRegion`, `StaleRegionRead`);
- the shadow frame buffer is faithful only for rows up to 1024 pixels (`ShadowExact`);
- an empty flush copies the rest of the mapping (`FlushExact`), and the unmap of a plain
  write mapping that was flushed copies the flushed range only (`PartialUnmapExact`);
- the window allocator compares ranges rounded down to pages while the hypervisor maps
  ranges rounded up, so two buffers can share a page (`MappedApartExact`, `MappedPagesOverlap`);
- with both fallbacks spent a buffer is laid over what is at 0 (`ExhaustedExact`), and at a
  fallback address the guest's pointer misses the buffer unless offsets in the page meet
  (`ReachesExact`, `PointerMisses`);
- a lookup whose new arena does not fit its own handle is not stable
  (`LookupIdempotentExact`, `RepeatedLookupAdds`); a push cuts ranges beyond half the cache (`DeliversExact`), and
  one that starts far into an array can leave its arena unflagged (`StaysExact`, `StrayPush`);
- the MD5 length field is 32 bits (`SourcePadExact`); the hook table holds 8 words
  (`UnhookExact`, `FivePagesNotRestored`); the tick count is exact only below one wrap (`AdvanceModWrap`).

`dafny verify dfyconfig.toml` checks the project.

## Model

| member | source | states |
|---|---|---|
| GlideRuns.BatchingRefinesImmediate | wrappers/3dfx/dxe/gl301dxe.c:151-155 | for every program of calls whose payloads fit, with no payload behind an empty download in one batch, and whose last call is sent at once, the library's trace of a batching guest (FIFO_EN 1, wherever the queue-full fallback fires) equals that of a guest that sends every call at once (FIFO_EN 0), and is the program call by call: its numbers, the parameters of each, and the memory each pointer names |
| GlideRuns.Run | qemu-0/hw/3dfx/glidept_mm.c:995-1009 | for every program whose payloads fit, with none behind an empty download in one batch, the calls issued are the program's, each with its parameters, the guest memory its pointers name and vertices as long as the layout before it, and the layout is that of the program; once a call is sent at once the host has run all of them; the invariant of both sides holds at the end, and the leak warning was given exactly when the run leaks |
| GlideRuns.ProgramMeant | wrappers/3dfx/dso/glidedso.c:249-976 | the events of a program are its calls as the application made them |
| GlideMeaning.EventMeant | wrappers/3dfx/dso/glidedso.c:249-976 | by function number, for every call with a payload: what the host's i-th pointer shows is the guest's memory at the address the application passed for that argument, as many words as the bytes it named take; any other call has no payload |
| GlideMeaning.ParametersHandedOn | wrappers/3dfx/dso/glidedso.c:249-976 | the argument words the host takes, sized by the symbol table, are the parameters the wrappers declare, with a length for five downloads |
| GlideMeaning.LayoutRun | qemu-0/hw/3dfx/vertex3x.h:27-36 | after any stream of calls an entry of the layout has the offset the last call that set it gave, or 0 when that disabled it, stands for it or was a reset |
| GlideMeaning.LayoutKept | qemu-0/hw/3dfx/vertex3x.h:27-36 | and an entry no call set is as it was |
| GlideRuns.FitsRunExact | wrappers/3dfx/dxe/gl301dxe.c:120-155 | over every program, payload never reaches the output page if and only if each payload ends before it at the cursor its predecessors leave |
| GlideRuns.ImmediateFits | wrappers/3dfx/dxe/gl301dxe.c:151-155 | a guest that sends every call at once needs no more room than one that batches |
| GlideRuns.SmallFits | qemu-0/hw/3dfx/g2xfuncs.h:207-214 | programs whose payloads are at most 60 KB each always fit |
| GlideRuns.LargeDownloadFits | wrappers/3dfx/dso/glidedso.c:697-794 | a 64 KB texture level behind an empty payload area fits too |
| GlideRuns.QueuedDownloadsOverrun | wrappers/3dfx/dso/glidedso.c:236-240 | an input that does not fit: 22 queued downloads of 128 KB write on the output page |
| GlideRuns.DownloadsOverrun | wrappers/3dfx/dso/glidedso.c:236-240 | any number of them does when the last starts below MAX_DATA and ends past it |
| GlideRuns.RunSparesExact | qemu-0/hw/3dfx/glidept_mm.c:433-443 | over every program, each batch finds all its payloads when it is drained, wherever the host has mapped the shared memory, if and only if in no batch payload follows a download of no bytes |
| GlideLevels.ReadsExact | qemu-0/hw/3dfx/glidept_mm.c:433-443 | in any memory that holds a batch, each call finds its payload after the pointers of the calls before it were left, for every host address, if and only if no payload lies behind a download of no bytes |
| GlideLevels.SparedExact | qemu-0/hw/3dfx/glidept_mm.c:433-443 | the same for all memories at once, one of which always exists |
| GlideLevels.FirstWordLost | qemu-0/hw/3dfx/glidept_mm.c:441 | calls whose payload starts with another word than the first one sent do not all find theirs |
| GlideRuns.SpillExact | qemu-0/hw/3dfx/glidept_mm.c:433-443 | the pointer to a mip-map level, at the aligned level size, ends past the call's payload if and only if the level has no bytes |
| GlideRuns.NoneEmptyUnspilt | wrappers/3dfx/dso/glidedso.c:965-976 | so programs without such a download never meet it |
| GlideRuns.ImmediateUnspilt | wrappers/3dfx/dso/glidedso.c:965-976 | nor does a guest that sends every call at once |
| GlideRuns.PointBehindEmptyLevel | wrappers/3dfx/dso/glidedso.c:965-976 | an input that is not spared: a point queued behind such a download; in every memory and at every host address the pointer takes the place of the point's first word |
| GlideRuns.UncountedExact | qemu-0/hw/3dfx/glidept_mm.c:485-500 | the host counts a payload a word short if and only if it is a frame buffer write of an odd word count |
| GlideRuns.RunLeaksOnlyOdd | qemu-0/hw/3dfx/glidept_mm.c:1001-1008 | over every program without such a write the leak warning is unreachable |
| GlideRuns.OneWordWriteLeaks | qemu-0/hw/3dfx/glidept_mm.c:1001-1008 | an input on which it comes: a one-word write with nothing queued ahead |
| GlideRuns.ReadRegion | wrappers/3dfx/dso/glidedso.c:525-532 | on guest and host in any reachable state, the guest's copy of a frame buffer region is what the library left, for all regions, if and only if no payload was queued ahead of the call |
| GlideRuns.StaleRegionRead | wrappers/3dfx/dso/glidedso.c:525-532 | a reachable state where it is not: behind one queued point the guest copies the point's first word |
| GlideGuest.Guest.Issue | wrappers/3dfx/dxe/gl301dxe.c:157-168 | one wrapper call adds exactly its event to what was issued and keeps the coupling: issued = run + pending, guest layout = host layout folded over the pending calls, queue and payload inside their areas; it moves both cursors as the room tests say, and the leak warning comes exactly for an uncounted word with nothing queued ahead |
| GlideGuest.Guest.FifoGrFunc | wrappers/3dfx/dxe/gl301dxe.c:151-155 | queue if there is room, else send: either way one more event, in order; with FIFO_EN 0 nothing is ever pending |
| GlideGuest.Guest.Send | qemu-0/hw/3dfx/glidept_mm.c:995-1009 | a trigger empties the queue in order, then runs the call, and brings the host's layout up to the guest's |
| GlideGuest.Guest.FifoAddData | wrappers/3dfx/dxe/gl301dxe.c:120-129 | one block is appended to the payload, padded to an even word, and nothing queued is disturbed |
| GlideGuest.Guest.FifoAddEntry | wrappers/3dfx/dxe/gl301dxe.c:109-118 | the number and the argument window are appended to the queue and no other word changes; the queue stays below MAX_FIFO |
| GlideGuest.Guest.Stage | wrappers/3dfx/dxe/gl301dxe.c:160-166 | all the blocks and argument words a wrapper writes before it queues or triggers make the call readable by the host |
| GlideGuest.Guest.UpdateLayout | wrappers/3dfx/dxe/gl301dxe.c:868-884 | only grVertexLayout and grReset change the guest's layout table, as the event changes the host's |
| GlideGuest.PayLenPrefix | wrappers/3dfx/dso/glidedso.c:130-139 | payload lengths add up piece by piece and never pass the total: the bound behind the separation of payload and output page |
| GlideHost.GlidePT.Trigger | qemu-0/hw/3dfx/glidept_mm.c:995-1009 | after a trigger the trace has the queued events in order, then the triggering call; both cursors are back at their start; the leak warning comes exactly when the call's payload is counted a word short and nothing was queued ahead |
| GlideHost.GlidePT.ProcessFifo | qemu-0/hw/3dfx/glidept_mm.c:869-929 | the drain runs every queued call, returns the queue to its start, restores the trigger's number and subtracts exactly the words drained |
| GlideHost.GlidePT.DrainQueue | qemu-0/hw/3dfx/glidept_mm.c:888-911 | the loop ends with cursor i at the queue's end and cursor j past exactly the queued payload |
| GlideHost.GlidePT.NextQueued | qemu-0/hw/3dfx/glidept_mm.c:890-906 | one turn runs the event at the cursors and moves both past it, whatever its kind |
| GlideHost.GlidePT.LeavePointer | qemu-0/hw/3dfx/glidept_mm.c:441 | the pointer to the payload goes, low word first, right behind the texture, and nothing else changes |
| GlideHost.GlidePT.RunCall | qemu-0/hw/3dfx/glidept_mm.c:901-904 | from memory alone the host recovers the event's number, arguments and payload and updates its layout as the guest did |
| GlideHost.GlidePT.ProcessArgs | qemu-0/hw/3dfx/glidept_mm.c:193-600 | the payload length and pieces computed on the host are those the guest sent |
| GlideHost.GlidePT.ProcessFRet | qemu-0/hw/3dfx/glidept_mm.c:839-845 | the host's layout table follows the stream |
| GlideHost.GlidePT.DoGlideFunc | qemu-0/hw/3dfx/glidept_mm.c:901-903 | one event with its arguments and pieces is added to the trace; the library may leave anything from the output page on, or, for a region read, from the call's payload on |
| GlideHost.GlidePT.SettleData | qemu-0/hw/3dfx/glidept_mm.c:1001-1008 | the data count left is 0 or its start value unless a word went uncounted; the warning comes exactly then, with nothing queued ahead |
| GlideHost.ReadBack | qemu-0/hw/3dfx/glidept_mm.c:193-600 | views that match the guest's pieces read back exactly those pieces |
| GlideHost.ArgsRecovered | qemu-0/hw/3dfx/glidept_mm.c:193-600 | for every framed event, length and pieces computed from shared memory are the event's |
| GlideHost.PointerSlot | qemu-0/hw/3dfx/glidept_mm.c:433-443 | the pointer the host writes for a mip-map level lies in the padding the guest sent for it, or, for a level of no bytes, just past its empty payload |
| GlideCalls.ArgCountsAgree | qemu-0/hw/3dfx/glide2x_impl.c:250-272 | for every function a wrapper queues, the words the host skips (symbol suffix plus the downloads' length word) are the words queued |
| GlideCalls.FramingAgrees | qemu-0/hw/3dfx/glidept_mm.c:193-600 | for every call kind, argument list and vertex size, the host's payload length and the offset of each piece equal what the guest's wrapper added |
| GlideCalls.EventFramed | wrappers/3dfx/dxe/gl301dxe.c:157-168 | whatever a wrapper sends under a layout, the host frames under that layout |
| GlideCalls.PolygonAgrees | wrappers/3dfx/dso/glidedso.c:397-404 | index list then one padded vertex per index: host offsets meet guest pieces for every count |
| GlideCalls.VertexArrayAgrees | wrappers/3dfx/dxe/gl301dxe.c:635-642 | one padded vertex per pointer: host offsets meet guest pieces for every count and layout |
| GlideCalls.OneBlockAgrees | wrappers/3dfx/dso/glidedso.c:697-794 | the single-block calls, downloads and tables among them, size their payload alike on both sides |
| GlideCalls.TwoBlocksAgree | qemu-0/hw/3dfx/glidept_mm.c:385-391 | the two-block calls, the fog table whose count is itself payload among them, place their second block alike |
| GlideCalls.ThreeBlocksAgree | wrappers/3dfx/dxe/gl301dxe.c:160-164 | triangles and gamma tables place their three blocks alike |
| GlideCalls.GuMipMapAgrees | wrappers/3dfx/dso/glidedso.c:956-976 | each optional block of a mip-map download is placed alike whether or not the other is there |
| GlideCalls.FbWriteAgrees | qemu-0/hw/3dfx/glidept_mm.c:485-500 | a frame buffer write is pointed at its one block, and counted as the guest padded it if and only if its word count is even |
| GlideCalls.RuleArgsPresent | qemu-0/hw/3dfx/glidept_mm.c:193-600 | a payload rule never reads an argument word the call does not have |
| GlideCalls.PayLenAppend | wrappers/3dfx/dso/glidedso.c:130-139 | the payload grows by the padded length of the block added |
| Words.PaddingAgrees | wrappers/3dfx/dso/glidedso.c:130-139 | the guest's round-to-even word count is the host's ALIGNED byte count |
| GlideQueue.QueuedAppend | wrappers/3dfx/dxe/gl301dxe.c:109-118 | a staged call queued behind others leaves a queue of all of them, framed in turn |
| GlideQueue.StagedAppend | wrappers/3dfx/dxe/gl301dxe.c:120-129 | a block staged behind others disturbs neither them nor the queue |
| GlideQueue.WindowFrame | wrappers/3dfx/dxe/gl301dxe.c:165-166 | writing the argument window leaves queue and payload alone |
| GlideQueue.FoldAppend | wrappers/3dfx/dxe/gl301dxe.c:880-884 | the layout after a stream is the layout of its prefix, changed by its last call: framing stays in step |
| GlideQueue.PayloadPiece | qemu-0/hw/3dfx/glidept_mm.c:193-600 | each piece is found from the lengths of those before it |
| GlideQueue.CursorCounts | wrappers/3dfx/dso/glidedso.c:119-139 | the two cursors in memory count what is queued and staged |
| GlideQueue.RemainingHead | qemu-0/hw/3dfx/glidept_mm.c:890-900 | in every state of the drain the cursors stand before a readable event |
| GlideQueue.RemainingTail | qemu-0/hw/3dfx/glidept_mm.c:905-907 | and after it ran, before the next |
| Vertex3x.GlideParams | qemu-0/hw/3dfx/g2xfuncs.h:218 | the table entry and the byte length of each of the twelve parameters of Glide3x |
| Vertex3x.LayoutEntry | qemu-0/hw/3dfx/vertex3x.h:27-36 | a layout call gives its own entry the offset, or 0 when disabling; packed argb clears a and rgb, rgb clears packed argb, and every other entry stays |
| Vertex3x.EnabledInside | qemu-0/hw/3dfx/vertex3x.h:37-44 | a parameter enabled at an offset ends inside the vertex |
| Vertex3x.SizeIsLeastCover | qemu-0/hw/3dfx/vertex3x.h:37-44 | the vertex size is the end of the furthest enabled parameter, never less than the x,y pair |
| Vertex3x.VlutVars | qemu-0/hw/3dfx/vertex3x.h:27-36 | a layout call in place is the table function both sides share (LayoutEntry says what that does), for every parameter number the index macro maps into the table |
| Vertex3x.SizeVertex3x | qemu-0/hw/3dfx/vertex3x.h:37-44 | the loop computes the least cover |
| Vertex3x.ClearVlut | wrappers/3dfx/dxe/gl301dxe.c:871-872 | a reset empties the table |
| Polygon.PolygonRoundTrip | wrappers/3dfx/dso/glidedso.c:397-404 | gather then scatter gives, for every entry of the index list, repeated or not, the guest's vertex at that index |
| Polygon.Scatter | qemu-0/hw/3dfx/glidept_mm.c:445-462 | the host's cache holds the last vertex sent for each index, in an array sized by the greatest |
| Polygon.PolygonPieces | wrappers/3dfx/dso/glidedso.c:397-404 | the payload is the index list, then the guest's vertex at each entry |
| Polygon.PutVertex | qemu-0/hw/3dfx/glidept_mm.c:455-458 | one copy sets one vertex and no other |
| Polygon.MaxIndex | qemu-0/hw/3dfx/glidept_mm.c:452-453 | the greatest index, or 0 for an empty list |
| Lfb.FlushRefinesTranslation | qemu-0/hw/3dfx/glidept_mm.c:171-189 | any visible writes to a mirroring shadow, then a flush, leave the host buffer as routing each write through the translation; bytes outside the rectangle stay |
| Lfb.ShadowExact | qemu-0/hw/3dfx/glidept_mm.c:1016-1025 | that holds for all shadows, buffers and writes if and only if a row is no wider than the shadow's pitch (1024 pixels) |
| Lfb.WritesKeepMirror | qemu-0/hw/3dfx/glidept_mm.c:1059-1087 | guest writes made on both sides keep the visible rectangles equal |
| Lfb.WriteKeepsMirror | qemu-0/hw/3dfx/glidept_mm.c:1059-1087 | one such write does, and touches its own row only |
| Lfb.FlushOverwrites | qemu-0/hw/3dfx/glidept_mm.c:171-189 | a flush does not depend on what the visible rows held |
| Lfb.VgLfbFlush | qemu-0/hw/3dfx/glidept_mm.c:171-189 | the row loop, in place, for every geometry that fits; nothing when the library has the buffer mapped |
| Lfb.GlideLfbWrite | qemu-0/hw/3dfx/glidept_mm.c:1059-1087 | a write of 2, 4 or 8 bytes lands little end first at the (translated) address; any other size changes nothing |
| TickTimer.ExtensionExact | wrappers/fxlib/fxhook.c:78-83 | for samples less than 2^24 ticks apart, however often the counter wraps, the stored count advances by exactly the true elapsed ticks |
| TickTimer.AdvanceModWrap | wrappers/fxlib/fxhook.c:78-83 | one sample advances it by the elapsed ticks modulo 2^24: exact if and only if fewer than 2^24 went by |
| TickTimer.FirstSampleInPhase | wrappers/fxlib/fxhook.c:61-67 | a fresh reference is put in phase by its first sample |
| TickTimer.MillisMonotone | wrappers/fxlib/fxhook.c:97-107 | the reported milliseconds never decrease, whatever the samples |
| TickTimer.MillisBounds | wrappers/fxlib/fxhook.c:85-107 | they are at most the exact quotient and lag it by less than 1000/freq + 1, denominators cleared |
| TickTimer.TckRef.constructor | wrappers/fxlib/fxhook.c:61-67 | the reference starts on a wrap boundary above the ticks already reported |
| TickTimer.TckRef.ElapsedTick | wrappers/fxlib/fxhook.c:72-95 | one call in place: both stores of the sample, or the fast counter's value; no result for an address that cannot be written, though the sample is taken |
| TickTimer.TckRef.TimeHook | wrappers/fxlib/fxhook.c:97-107 | the milliseconds of the updated count, in 32 bits |
| Hook.UnhookExact | wrappers/fxlib/fxhook.c:21-33 | after any hooking each hooked word is recorded once, and release restores every word if and only if the pages hold at most 8 of the functions looked for |
| Hook.UnhookHeldExact | wrappers/fxlib/fxhook.c:21-33 | for pages apart from each other that number is, on the image as it was, how many of the two functions each page holds, summed |
| Hook.HitsHeld | wrappers/fxlib/fxhook.c:155-183 | what the scans find in such pages is what the pages held before any of them was patched |
| Hook.FivePagesNotRestored | wrappers/fxlib/fxhook.c:21-33 | an input that is not restored: five pages that hold both functions |
| Hook.PageReplaced | wrappers/fxlib/fxhook.c:167-180 | in each page the first word with either address gets the hook for that function, and every other word stays |
| Hook.PatchAllKeeps | wrappers/fxlib/fxhook.c:155-183 | over any pages, the table holds the old value of hooked words, each once, and of all of them until it is full |
| Hook.HitsAreChanges | wrappers/fxlib/fxhook.c:155-183 | the functions found in the pages, counted by the scan, are as many as the words changed |
| Hook.RestoredAt | wrappers/fxlib/fxhook.c:23-29 | release writes the recorded positions and no others |
| Hook.Hooks.HookEntryHook | wrappers/fxlib/fxhook.c:6-35 | record while there is room; release puts every recorded word back and empties the table |
| Hook.Hooks.HookPatchTimer | wrappers/fxlib/fxhook.c:155-183 | the scan in place, stopping when both functions were found |
| GlContexts.RunConserves | qemu-1/hw/mesa/mglcntx_mingw.c:563-593 | in every run of create, create-with-attributes and delete the non-null slots are distinct and are exactly the live contexts |
| GlContexts.StepConserves | qemu-1/hw/mesa/mglcntx_mingw.c:274-325 | each operation keeps that |
| GlContexts.PlaceSound | qemu-1/hw/mesa/mglcntx_mingw.c:563-593 | the level returned is a free slot, the share parent is live and one level below, and eviction spares level 0 |
| GlContexts.EvictsLevelOne | qemu-1/hw/mesa/mglcntx_mingw.c:563-593 | sharing with a full table deletes the context of level 1, moves those above it down and shares with the highest |
| GlContexts.TakesFirstFree | qemu-1/hw/mesa/mglcntx_mingw.c:563-593 | with room the new context takes the first free level and shares with the one below |
| GlContexts.StartsOver | qemu-1/hw/mesa/mglcntx_mingw.c:563-593 | without sharing, or with nothing to share with, all are deleted and level 0 is taken, as by a plain create |
| GlContexts.DeletesLevel | qemu-1/hw/mesa/mglcntx_mingw.c:274-291 | which level a delete takes away, and that level 0 takes them all |
| GlContexts.DeleteConserves | qemu-1/hw/mesa/mglcntx_mingw.c:274-291 | deleting a level, or all of them, keeps it too |
| GlContexts.ContextTable.CreateContext | qemu-1/hw/mesa/mglcntx_mingw.c:305-325 | the table in place: everything deleted, the new context at level 0 |
| GlContexts.ContextTable.CreateContextAttribs | qemu-1/hw/mesa/mglcntx_mingw.c:563-593 | the attributes branch in place: level, parent and table |
| GlContexts.ContextTable.DeleteContext | qemu-1/hw/mesa/mglcntx_mingw.c:274-291 | a delete in place |
| Md5.Md5Digest | wrappers/fxlib/md5.c:18-161 | for every message under 2^29 bytes the routine computes RFC 1321's digest |
| Md5.RotLIsRotation | wrappers/fxlib/md5.c:13 | the macro's shifts and or are the rotation, for every shift from 1 to 31 |
| Md5.Rotation | wrappers/fxlib/md5.c:13 | the rotation is x * 2^s modulo 2^32 plus x / 2^(32 - s) |
| Md5.FunctionBits | wrappers/fxlib/md5.c:121-133 | in every bit position F and G choose, H is the parity and I is section 3.4's formula |
| Md5.BlockReads | wrappers/fxlib/md5.c:81 | each of the sixteen words is the one whose bytes, low-order first, stand in the chunk |
| Md5.InitBytes | wrappers/fxlib/md5.c:51-54 | the start values have the bytes section 3.3 lists |
| Md5.RolledMatchesUnrolled | wrappers/fxlib/md5.c:97-147 | after any number of steps the rotating registers are those of section 3.4's written-out operations, renamed |
| Md5.ChunkIsRfcBlock | wrappers/fxlib/md5.c:78-156 | one pass of the loop is one block of section 3.4 |
| Md5.ListedIndex | wrappers/fxlib/md5.c:121-133 | the computed word index and tabulated shift are the listed ones, for all 64 steps |
| Md5.ColumnTurns | wrappers/fxlib/md5.c:138-143 | moving the registers round is the column order of the listed operations |
| Md5.SourcePadExact | wrappers/fxlib/md5.c:65-73 | the prepared buffer is the padding of sections 3.1 and 3.2 if and only if the message is under 2^29 bytes |
| Md5.PaddingInjective | wrappers/fxlib/md5.c:65-73 | no two messages pad alike |
| Md5.NewLenIsRfc | wrappers/fxlib/md5.c:65 | the padded length is the least one that section 3.1 allows |
| Md5.Prepare | wrappers/fxlib/md5.c:65-73 | the buffer in place |
| Md5.Chunk | wrappers/fxlib/md5.c:92-147 | the 64 turns in place |
| Md5.Chunks | wrappers/fxlib/md5.c:78-156 | the loop over the chunks in place |
| BufObj.LookedRefinesMap | qemu-1/hw/mesa/mglmapbo.c:45-69 | a lookup is find-or-insert on the finite map: at most one zeroed record, at the end, and indices stay unique |
| BufObj.NewRecordZeroed | qemu-1/hw/mesa/mglmapbo.c:45-69 | a record made by a lookup has nothing but its index |
| BufObj.FreedRefinesMap | qemu-1/hw/mesa/mglmapbo.c:71-94 | a free removes exactly its key; the other records keep their order |
| BufObj.AsMapIs | qemu-1/hw/mesa/mglmapbo.c:34-37 | in a list with unique indices the map holds exactly the records |
| BufObj.LookupBufObj | qemu-1/hw/mesa/mglmapbo.c:45-69 | the walk over heap nodes refines the lookup and returns the node of the record |
| BufObj.FreeBufObj | qemu-1/hw/mesa/mglmapbo.c:71-94 | the walk and unlink refine the free and return the remaining length |
| BufObj.InitBufObj | qemu-1/hw/mesa/mglmapbo.c:34-43 | the list ends empty |
| HeapList.List.AddTail | qemu-1/hw/mesa/mglmapbo.c:60-66 | a node after the last extends the contents by one |
| HeapList.List.Unlink | qemu-1/hw/mesa/mglmapbo.c:76-84 | a node is taken out and the others keep their order |
| GpaWindow.RunApart | qemu-1/hw/mesa/mglmapbo.c:96-122 | over every run of maps of unlisted indices and unmaps in which a placement finds room, the page-floored ranges of all listed buffers stay pairwise apart |
| GpaWindow.RunApartPages | qemu-1/hw/mesa/mglmapbo.c:96-122 | the same in addresses, for runs from an empty list |
| GpaWindow.OwnPlace | qemu-1/hw/mesa/mglmapbo.c:101-115 | a buffer whose host address modulo the window is free, or that is first, goes there: same offset in its page |
| GpaWindow.FallbackPlace | qemu-1/hw/mesa/mglmapbo.c:116-120 | any other goes just below the lowest listed page, else to the page after the highest, else to 0 |
| GpaWindow.ReachesExact | qemu-1/hw/mesa/mglcntx_mingw.c:43-47 | the guest's pointer reaches the buffer's first byte always in its own place, and at a fallback address if and only if the offsets in the page meet |
| GpaWindow.PointerMisses | qemu-1/hw/mesa/mesapt_mm.c:1929-1930 | an input on which it does not: the pointer is 16 bytes below the buffer |
| GpaWindow.RunReaches | qemu-1/hw/mesa/mglcntx_mingw.c:43-47 | over every run of buffers that begin on a page and take whole pages all pointers reach |
| GpaWindow.PlacedApart | qemu-1/hw/mesa/mglmapbo.c:114-120 | a placement that found room is apart from every record before it |
| GpaWindow.FallbackFits | qemu-1/hw/mesa/mglmapbo.c:116-120 | a buffer moved by a fallback fits in the window |
| GpaWindow.ExhaustedExact | qemu-1/hw/mesa/mglmapbo.c:116-120 | with both fallbacks spent the buffer goes to 0: apart from the others if and only if it ends at or below the lowest that reaches past page 0 |
| GpaWindow.ExhaustedOverlap | qemu-1/hw/mesa/mglmapbo.c:116-120 | an input on which it does overlap |
| GpaWindow.RunInWindow | qemu-1/hw/mesa/mglmapbo.c:96-122 | over every run each buffer begins in the window |
| GpaWindow.MappedExact | qemu-1/hw/mesa/mglcntx_mingw.c:38-51 | the pages the hypervisor maps end where the floored range ends if and only if the last page is covered; otherwise one page further |
| GpaWindow.MappedApartExact | 00-qemu720-mesa-glide.patch:8-41 | two buffers with floored ranges apart share no mapped page if and only if the lower one's last page is covered, or a page lies between them, or the upper one has no bytes and starts on the same page |
| GpaWindow.RunMappedApart | 00-qemu720-mesa-glide.patch:8-41 | over every run that finds room, buffers of whole pages share no mapped page; the condition is on the buffers before they are placed |
| GpaWindow.MappedPagesOverlap | 00-qemu720-mesa-glide.patch:8-41 | a run that always finds room and still maps one page for two buffers |
| GpaWindow.MapBufObjGpa | qemu-1/hw/mesa/mglmapbo.c:96-122 | the walk in place gives the placement and the record's position, and changes only its address |
| MappedBuffers.OneCopyIsDirect | qemu-1/hw/mesa/mesagl_impl.c:143-178 | for every legal run of maps, guest writes, flushes and unmaps over several buffers that leaves no plain write mapping, the host memory is what the guest would have left by writing it itself; read-only maps change nothing, explicit-flush maps only the flushed ranges |
| MappedBuffers.RunCoupled | qemu-1/hw/mesa/mesapt_mm.c:1373-1420 | in every reachable state each shadow shows the guest the bytes it would see with a direct mapping, and host memory outside pending write mappings is the reference's |
| MappedBuffers.StepCoupled | qemu-1/hw/mesa/mesapt_mm.c:1918-1946 | each call keeps that |
| MappedBuffers.StepStack | qemu-1/hw/mesa/mesapt_mm.c:1924-1946 | each call keeps the stack safe: non-empty regions apart and below the height, height 0 with an empty list |
| MappedBuffers.NestRestores | qemu-1/hw/mesa/mesapt_mm.c:1941-1945 | every well-nested run of maps and unmaps, with writes and flushes anywhere, leaves the stack height as it was, and the list but for what a flush noted |
| MappedBuffers.CopyExact | qemu-1/hw/mesa/mesagl_impl.c:169-178 | a copy by offset and range is that of given bytes for all shadows if and only if it names those bytes |
| MappedBuffers.FlushExact | qemu-1/hw/mesa/mesagl_impl.c:169-178 | a flush copies exactly its range for all shadows if and only if the range is not empty or is at the mapping's end |
| MappedBuffers.PartialUnmapExact | qemu-1/hw/mesa/mesapt_mm.c:1413-1417 | in any reachable state, a flush of a plain write mapping and then its unmap publish the whole mapping, whatever the guest wrote, if and only if the flush named all of it |
| MappedBuffers.WritesAfterFlush | qemu-1/hw/mesa/mesapt_mm.c:1394-1417 | what the guest stores after a flush: the unmap publishes none of it after the APPLE form, and the flushed range again after the plain one |
| MappedBuffers.CoupledMap | qemu-1/hw/mesa/mesagl_impl.c:143-167 | a new shadow is below every other and holds what the guest would see |
| MappedBuffers.CoupledFlush | qemu-1/hw/mesa/mesapt_mm.c:1373-1401 | a flush of an explicit mapping publishes the flushed range and nothing else |
| MappedBuffers.CoupledUnmap | qemu-1/hw/mesa/mesapt_mm.c:1413-1417 | an unmap publishes what a plain write mapping held back |
| MappedBuffers.CoupledWrite | qemu-1/hw/mesa/mesapt_mm.c:1924-1936 | a guest store reaches its own mapping and no other |
| MappedBuffers.CreatedCoupled | qemu-1/hw/mesa/mesapt_mm.c:2191-2198 | a new context starts coupled |
| MesaBuffers.MesaPT.MapBuffer | qemu-1/hw/mesa/mesapt_mm.c:1918-1937 | a map call in place, of a listed buffer too, is the machine's map step, and returns the height the guest computes its pointer from |
| MesaBuffers.MesaPT.GuestStore | qemu-1/hw/mesa/mesapt_mm.c:1931-1934 | a store through that pointer is the machine's write step |
| MesaBuffers.MesaPT.FlushRange | qemu-1/hw/mesa/mesapt_mm.c:1373-1401 | a flush call in place, the APPLE form too, is the machine's flush step |
| MesaBuffers.MesaPT.UnmapBuffer | qemu-1/hw/mesa/mesapt_mm.c:1938-1946 | an unmap call in place is the machine's unmap step |
| MesaBuffers.MesaPT.WrFlushBufObj | qemu-1/hw/mesa/mesagl_impl.c:169-178 | the copy back in place |
| MesaBuffers.MesaPT.constructor | qemu-1/hw/mesa/mesapt_mm.c:2191-2198 | a new context in place |
| VertexArena.LookupStable | qemu-1/hw/mesa/mglvarry.c:35-75 | the position a lookup returns is returned again after any further lookups |
| VertexArena.NeighbourShares | qemu-1/hw/mesa/mglvarry.c:42-54 | a handle within half the size of one that had an arena made shares it, at the distance of the addresses |
| VertexArena.LookupIdempotentExact | qemu-1/hw/mesa/mglvarry.c:51-71 | a repeated lookup adds nothing if and only if an arena fitted or the new one is sound (a size, no wrap, a handle not below the first page) |
| VertexArena.RepeatedLookupAdds | qemu-1/hw/mesa/mglvarry.c:51-71 | an input on which a repeated lookup adds a second arena and answers another address: a handle near the top of the address space |
| VertexArena.NewArenaFits | qemu-1/hw/mesa/mglvarry.c:53-54 | when a new arena fits the handle it was made for |
| VertexArena.PositionStable | qemu-1/hw/mesa/mglvarry.c:35-75 | positions survive every run of lookups |
| VertexArena.PositionInArena | qemu-1/hw/mesa/mglvarry.c:42-49 | a position is inside its arena with half the size asked for left |
| VertexArena.AnsweredHome | qemu-1/hw/mesa/mglvarry.c:35-75 | after any run of lookups the pointer one of them returned is still the place of its handle in one arena |
| VertexArena.LookAllApart | qemu-1/hw/mesa/mglvarry.c:55-70 | with an allocator that hands out blocks apart, arenas stay apart over every run of lookups |
| VertexArena.SharedBytesAgree | qemu-1/hw/mesa/mglvarry.c:74 | ranges that share a host byte are in one arena, at one distance from their guest addresses |
| VertexArena.LookupVertArry | qemu-1/hw/mesa/mglvarry.c:35-75 | the walk in place: first fit, else a new arena at the end |
| VertexArena.FreeVertArry | qemu-1/hw/mesa/mglvarry.c:77-90 | the list ends empty, and its length is returned |
| VertexPush.DrawnElementPresent | qemu-1/hw/mesa/mesapt_mm.c:909-953 | for every index a draw reads and every active array whose range is not cut, each byte of the element, at pointer + index * stride (or size), is the guest's at handle + index * stride (or size), if arrays that overlap are equally far from their addresses |
| VertexPush.PushedElementPresent | qemu-1/hw/mesa/mesapt_mm.c:199-331 | the same for any range pushed, as by a draw of consecutive elements |
| VertexPush.IndexBytes | qemu-1/hw/mesa/mesapt_mm.c:918-947 | an index is the number whose bytes, low-order first, the draw sent |
| VertexPush.PushAllMirrors | qemu-1/hw/mesa/mesapt_mm.c:199-331 | after all arrays were pushed in turn each one's range equals guest memory: no later push undoes an earlier one |
| VertexPush.PushAllFrame | qemu-1/hw/mesa/mesapt_mm.c:199-331 | bytes outside every pushed range stay |
| VertexPush.DeliversExact | qemu-1/hw/mesa/mesapt_mm.c:206-208 | pushing one array delivers every element of the range to where GL reads it, for all memories, guests and payloads, if and only if the range takes at most half the vertex cache |
| VertexPush.CutElementMissing | qemu-1/hw/mesa/mesapt_mm.c:206-208 | where it does not, a memory that keeps a stale byte of the last element |
| VertexPush.RangeCovers | qemu-1/hw/mesa/mesapt_mm.c:918-947 | the two index scans find the least and the greatest index, and 0 for no index |
| VertexPush.LookedUpElementPresent | qemu-1/hw/mesa/mglvarry.c:35-75 | from any run of lookups that placed the arrays to the draw: every element an index names is guest memory, overlapping arrays included, when what is pushed stays below the end of each array's arena |
| VertexPush.PlacedConsistent | qemu-1/hw/mesa/mglvarry.c:35-75 | arrays placed by lookups agree on the guest address of every byte they share |
| VertexPush.StaysExact | qemu-1/hw/mesa/mesapt_mm.c:206-208 | a pushed range stays in its arena if and only if its offset from the handle ends below the arena's end; from element 0 it always does |
| VertexPush.FirstElementStays | qemu-1/hw/mesa/mesapt_mm.c:199-331 | so a draw whose least index is 0 needs no more |
| VertexPush.StrayPush | qemu-1/hw/mesa/mesapt_mm.c:206-208 | an input on which a range leaves its arena with no overflow flagged |
| VertexPush.IndexRange | qemu-1/hw/mesa/mesapt_mm.c:918-947 | the scan loops compute that range for 1, 2 and 4 byte indices |
| VertexState.MesaVertex.PushVertexArray | qemu-1/hw/mesa/mesapt_mm.c:199-331 | the pushes in place: shadow, payload cursor and datacb, which grows by exactly the bytes consumed |
| VertexState.MesaVertex.EveryArrayPushed | qemu-1/hw/mesa/mesapt_mm.c:199-331 | every enabled array is among those pushed, or the interleaved one alone |
| VertexState.MesaVertex.PushArray | qemu-1/hw/mesa/mesapt_mm.c:216-226 | one array in place |
| VertexState.MesaVertex.DrawArrays | qemu-1/hw/mesa/mesapt_mm.c:897-903 | a draw of consecutive elements in place |
| VertexState.MesaVertex.DrawElements | qemu-1/hw/mesa/mesapt_mm.c:909-996 | an indexed draw in place, with and without a base vertex |

## Left out

- GlideRuns.BatchingRefinesImmediate: programs that fit (FitsRunExact says exactly which payloads then stay off the output page; beyond it the host's results and the guest's data overwrite each other), in which no payload is queued behind a download of no bytes (RunSparesExact: beyond it a payload is lost to the host's pointer), and that end in a call sent at once.
- GlideMeaning.EventMeant: byte counts the wrappers work out themselves (texture and fog lengths) are given with the call; the calls of the extensions, from 0xa7 on, have no declared parameter lists to compare.
- Vertex3x.VlutVars: parameter numbers the index macro maps outside the table, where the source writes past it.
- GlideHost.GlidePT.LeavePointer: a host with 8-byte pointers.
- GlideCalls.FramingAgrees: products such as rows times stride are unbounded integers; the payload limit keeps those of any framed call below 2^32.
- GlideHost.GlidePT.DoGlideFunc: the call is recorded when the host frames it, those the host withholds before grGlideInit too; pointer tables the host leaves in the output page and words the library writes there are arbitrary values.
- GlideHost.GlidePT.ProcessArgs: the per-call rewriting of arguments for grBufferSwap, grLfbLock and grLfbUnlock, the Glide 2.11 emulation and the 3DF file calls' contents are not modelled.
- Polygon.PolygonRoundTrip: index entries are non-negative, as the library requires.
- Lfb.VgLfbFlush: 16-bit modes and the colour buffer only; the 32-bit pitch and the auxiliary buffer's offset repeat it with other constants; whether the library has the buffer mapped is a parameter.
- TickTimer.TckRef.ElapsedTick: 64-bit overflow of the tick count and the last-error code; the fast counter's value, and whether the result address can be written, are parameters.
- Md5.Md5Digest: the sine table is the same constant on both sides, and md5page's hexadecimal formatting is left out.
- Hook.UnhookExact: page protection calls always succeed, and the replacement functions are not among those looked for.
- GlContexts.RunConserves: pixel-buffer contexts, which have tables of their own, and the driver's own failures beyond a null handle.
- GlContexts.ContextTable.CreateContext: the pixel-buffer branch, for the same reason.
- GpaWindow.RunApart: host mappings do not exceed 4 GB less a page (the 32-bit sums then do not wrap); a buffer is not mapped again while listed.
- MappedBuffers.OneCopyIsDirect: buffers have storage of their own, mappings fit on the stack (so the overflow clamp is not reached), the filling read succeeds exactly when the mapping does, and flushes are of explicit mappings; the exact results above say what the other flushes do.
- MesaBuffers.MesaPT.MapBuffer: targets that are filled; GL_PIXEL_UNPACK_BUFFER, which is not, is left out.
- VertexPush.DrawnElementPresent: the guest packs whole words of its own memory for each array, indices are below 2^31; the Mesa guest encoder is not part of this model.
- VertexState.MesaVertex.PushVertexArray: the blocks written out for each array are one loop over the arrays in the same order; component sizes are given as bytes per element.
- VertexArena.LookupStable: sizes whose double, with a page, does not fit in 32 bits are excluded; where arenas must not overlap, the allocator's blocks are taken to be apart.
- VertexState.MesaVertex.DrawElements: index types of 1, 2 or 4 bytes, the ones GL has; with any other the source scans nothing.
- Function bodies of the library dispatch, windows, cursors, gamma, profiling and configuration: foreign calls and plumbing.
- The queue-depth statistics and trace output: they do not feed back.
- gllstbuf.c and glidedxe.c: they repeat the list code and the wrapper modelled here.
- The call tables beyond sizes and argument counts, and the extension and token tables: constants.

Nothing was executed; every statement above is about the model.
