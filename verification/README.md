# The core of the RPi Vulkan driver, verified

This project models the parts of the driver whose state the rest of the driver relies on, and
proves what every step of them keeps, what whole runs of them guarantee, and where they go wrong.
Classes stand for the C structs that are updated in place; their methods are proved against
functions on values, and the main results are lemmas about those functions over every input,
every run or every interleaving.

**Recording memory.** A command pool owns one buffer, carved into blocks by an intrusive free
list (`FreeList`, `ConsecutiveSpec`, `PoolLaws`, `ConsecutivePool`). Control lists live in it and grow by
reallocation (`ControlLists`, `ListViews`), seven to a command buffer (`Beginning`); the binning list carries a linked list of markers
(`Markers`, `StructLayout`, `Recording`, `MarkerFields`, `Tapes`, `Submission`). Draws write handle indices and note where they stand
(`DrawSpec`, `DrawLaws`, `Drawing`, `ShaderRecords`), and `vkCmdExecuteCommands` copies a secondary command
buffer into a primary one and rewrites every index (`Relocation`, `RelocationLoops`,
`CommandBuffers`, `ExecuteCommands`), which is not always safe to do twice (`Reexecution`). Whether a list can grow, where it is then and how a command
ends is foretold from the blocks it starts with (`Places`, `Forecast`).

**Presentation.** The flip queue of `driver/modeset.c` is a state machine whose steps are the
critical sections, the waits and the acts of GPU and kernel (`FlipProtocol`, `FlipWaits`); the critical
sections are also modelled on the bytes of the queue (`FlipQueue`), which is the doubly linked
FIFO of `driver/fifo.c` (`FifoQueue`) over two pools (`PoolAllocator`).
`Swapchain` and `Presentation` add one application with one swapchain.

**Codecs and layout.** The generated packet packers and their unpackers (`Packets`,
`PacketRoundTrip`, `PacketGenerator`), the QPU instruction words (`BitFields`, `QpuCodec`, `QpuFields`,
`QpuEncoders`), the mip levels of images (`PowersOfTwo`, `MipLevels`, `MipSides`, `ImageLayout`), the
streaming parser of hardware descriptions (`SpecBuilder`, `SpecParser`, `SpecContext`,
`SpecMeaning`, `SpecFields`), and descriptor sets with their hash tables (`BindingMap`, `DescriptorLayout`,
`DescriptorSets`).

`Bytes`, `Bits`, `Seqs` and `Arithmetic` are the vocabulary. A C pointer or offset is a 32-bit
number, a C struct in a buffer is its bytes, and unsigned arithmetic wraps where the code lets it
wrap. The driver's `assert` expands to nothing in a release build, so the model does not rely on
it; where the code would then go on with a failed allocation, a null pointer or a stale pointer,
the model says exactly when that happens and stops there.

The functions that methods are proved against are tied down in turn by laws in other terms: where
each byte, bit or list position stands and what it says, with the numbers of the C structs, the
hardware's instruction formats and the packet descriptions written out.

Where the code falls short of what it is for, there is a theorem that says exactly when, and a run
or an input that gets there (`PoolFailures`, `StaleWitness`, `Overrun` and the members named):

- growing a run of blocks in place keeps the pool partitioned if and only if the taken block is
  first or second on the free list and not alone on it, and a whole run stays partitioned
  throughout if and only if all its in-place growths are of that kind; moving a run makes the block
  counter wrong whenever it succeeds (`GrowInPlaceExact`, `CleanRunExactly`, `MoveExact`;
  `GrowthLosesBlocks`, `GrowthKeepsTheLastBlock`, `MovingMiscounts`);
- all markers of a recording say how many shader records were emitted while they were open if and
  only if none had been emitted when the last marker but one was inserted, and so do the jobs handed
  to the kernel (`MarkerCountsExact`, `JobCountsExact`;
  `ThirdMarkerMiscounts`);
- executing several secondaries uses a pointer to the primary's marker taken before the first. How
  the command ends is a function of where the primary's lists lie before it, and when the other
  lists have room, the pointer is used after the marker has moved if and only if some secondary has
  an index word and by its turn the commands before it have moved the binning list
  (`ExecuteCommands`, `EndsExactly`; `StaleReached`);
- executing a secondary again keeps its meaning if and only if the secondary's own table has each of
  its handles at the position where the first primary's table had it (`CarriedAgainExactly`;
  `LostAgain`);
- drawing with an index buffer writes nine bytes for which no room is made: it is sound if and only
  if the binning list has that room and the two lists that are asked for can be served
  (`DrawIndexBuffer`; `DrawnWithoutRoom`, `RestGoesBehind`);
- the flip queue crashes if and only if an image is presented while two are queued
  (`CrashesExactlyWhenFull`; `ThirdPresentCrashes`). No image ever comes back if and only if the last
  entry waits for a flip and no event is outstanding, which is what a refused flip leaves; in every
  other state the last entry's image can be the next to come back (`BlockedExactlyWhenRefused`;
  `RefusedOnce`);
- a decoded QPU word is encoded to itself if and only if its load mode is one of four and, for
  branches, four unused bits are zero; an ALU instruction with the signal of a load or branch is
  read as one (`EncodeDecoded`, `DecodeEncoded`; `UnknownModeIsLost`);
- the probe loop of a binding map goes on for ever if and only if the key is not there and every
  slot is taken (`SearchEndlessExactly`; `OneSlotFull`); all bindings of a descriptor layout find a place and a
  slot if and only if none is an empty one at the end of its class and no class has more bindings
  than descriptors (`RoomExactly`; `ReservedBindingFails`).

## Model

| member | source | states |
|---|---|---|
| ConsecutiveSpec.FirstFit | driver/ConsecutivePoolAllocator.c:55-101 | the search fails if and only if no list position starts enough list neighbours that are also neighbours in memory, and otherwise finds the earliest such position |
| ConsecutiveSpec.AllocateKeeps | driver/ConsecutivePoolAllocator.c:49-124 | an allocation hands out only blocks that were free, keeps free and live blocks a partition of the pool, the list without repeats and the counter equal to its length |
| ConsecutiveSpec.ReleaseKeeps | driver/ConsecutivePoolAllocator.c:127-202 | giving blocks back keeps the partition and the list without repeats |
| ConsecutiveSpec.AllocateReleaseRun | driver/ConsecutivePoolAllocator.c:8-202 | over every run of allocations and releases from a created pool, free and live blocks partition the pool, the list repeats no block and the counter is its length |
| ConsecutiveSpec.GrowInPlaceExact | driver/ConsecutivePoolAllocator.c:220-231 | in-place growth keeps the partition if and only if the block is taken first or second and not alone; live memory stays off the list if and only if it was not alone |
| ConsecutiveSpec.MoveExact | driver/ConsecutivePoolAllocator.c:233-257 | moving keeps the partition for all sizes; the request fails, and changes nothing, if and only if no run on the list is long enough, and only then does the counter stay right |
| ConsecutiveSpec.CleanRunPartition | driver/ConsecutivePoolAllocator.c:8-258 | with growth as well, the partition survives every run whose in-place growths take their block cleanly |
| ConsecutiveSpec.CleanRunExactly | driver/ConsecutivePoolAllocator.c:8-258 | free and live blocks partition the pool throughout a run of allocations, releases and growths if and only if every in-place growth takes its block cleanly |
| PoolFailures.GrowthLosesBlocks | driver/ConsecutivePoolAllocator.c:220-231 | a run from a created pool whose last step, growing over the third block on the list, loses a block for ever |
| PoolFailures.GrowthKeepsTheLastBlock | driver/ConsecutivePoolAllocator.c:220-231 | a run after which the block just handed out is still on the free list |
| PoolFailures.MovingMiscounts | driver/ConsecutivePoolAllocator.c:233-257 | a run after which two blocks are free and the counter says one |
| ConsecutiveSpec.GrownBlocks | driver/ConsecutivePoolAllocator.c:204-258 | after growth that does not lose the pool, the run consists of its old blocks and formerly free ones, is off the list, and all other live blocks stay live |
| PoolLaws.AllocateIs | driver/ConsecutivePoolAllocator.c:49-124 | position by position: the earliest run on the list is handed out and the list closes up behind it, the counter is that much less, and without a run nothing changes |
| PoolLaws.ReleaseIs | driver/ConsecutivePoolAllocator.c:127-202 | position by position: a run comes back right behind the block before it in memory if that is on the list, in front otherwise, and the others keep their order |
| PoolLaws.GrowIs | driver/ConsecutivePoolAllocator.c:209-231 | position by position: taking the block at position k makes the block before it the head and loses those before that; a block alone on the list stays there |
| PoolLaws.MoveIs | driver/ConsecutivePoolAllocator.c:233-257 | any other growth is an allocation and a release, with the growth subtracted from the counter once more |
| ConsecutivePool.ConsecutivePool.Create | driver/ConsecutivePoolAllocator.c:8-36 | the links written into the buffer list every block, in address order |
| ConsecutivePool.ConsecutivePool.FindRun | driver/ConsecutivePoolAllocator.c:55-101 | following links through the bytes finds exactly the first fit |
| ConsecutivePool.ConsecutivePool.Allocate | driver/ConsecutivePoolAllocator.c:49-124 | what the stores leave is first fit on the list; no byte of a live block changes |
| ConsecutivePool.ConsecutivePool.Release | driver/ConsecutivePoolAllocator.c:127-202 | the run is spliced in behind its free neighbour or put in front, and no byte of another live block changes |
| ConsecutivePool.ConsecutivePool.Reallocate | driver/ConsecutivePoolAllocator.c:204-258 | both paths, on bytes: the list and counter after it, the caller's bytes at their new place, all other live blocks untouched |
| PoolAllocator.Pool.Create | driver/PoolAllocator.c:7-34 | the free list holds every block, in address order |
| PoolAllocator.Pool.Allocate | driver/PoolAllocator.c:45-61 | the head of the list, or 0 if it is empty; no byte changes |
| PoolAllocator.Pool.Free | driver/PoolAllocator.c:63-73 | the block becomes the head; only its own bytes change |
| ControlLists.ControlList.HasEnoughSpace | driver/ControlListUtil.c:17-31 | yes if and only if that many more bytes fit the list's blocks |
| ControlLists.ControlList.InsertData | driver/ControlListUtil.c:102-108 | the bytes come behind the others; every other list of the pool keeps all its bytes |
| ControlLists.ControlList.Relocate | driver/common.c:538-544 | the list's bytes, and cursor and marker seen from its start, survive the move to other blocks; succeeds exactly if the pool can grow the run without losing its list |
| ControlLists.ControlList.Fit | driver/common.c:534-550 | afterwards the bytes fit, in as few blocks as hold them and one byte more, contents and marker position are unchanged, and all other lists keep their bytes, exactly if there was room or the pool can grow the run without losing its list; pool and place are as foretold from the blocks before |
| ControlLists.ControlList.GetHandleIndex | driver/ControlListUtil.c:596-619 | the handle's first position in the marker's table; the table is only ever appended to, and only by handles it lacks |
| ControlLists.ControlList.CloseCurrentMarker | driver/ControlListUtil.c:87-100 | on bytes: exactly the current marker's size fields change |
| ControlLists.ControlList.InsertNewMarker | driver/ControlListUtil.c:45-85 | on bytes: the open marker is closed and linked, the new one appended and made current, all its words 0 but for the guard, the end of the list and where its ranges start; all other lists kept |
| StructLayout.OffsetsAreTheFields | driver/ControlListUtil.h:15-67 | the offsets used for the fields of a marker are where the struct's declaration puts those fields, and its size is where the last one ends |
| Markers.InsertedIsNew | driver/ControlListUtil.c:58-84 | whatever stood before, the inserted marker is new: no draw counted, nothing to clear, no image, and the first one's ranges start at 0 |
| Markers.ClosedWords | driver/ControlListUtil.c:87-100 | word by word: each size is how far its list has come since the range started, the record count how far the counter has come since what was seeded, and no other byte changes |
| Recording.InsertEffect | driver/ControlListUtil.c:45-85 | behind an open marker, insertion links it to a new one whose ranges start where the lists end and whose other words are 0; the open one keeps every field that closing does not compute, and nothing else is touched |
| Recording.StepDescribed | driver/ControlListUtil.c:45-108 | every recording step keeps what all markers say: their ranges, links and claimed counts |
| Recording.RecordedTapesWalkAndTile | driver/ControlListUtil.c:45-108 | after any sequence of insertions, appends and a final close, following the links visits exactly the inserted markers in order, and their binning, handle, shader record and uniform ranges tile the lists |
| Recording.MarkerCountsExact | driver/ControlListUtil.c:69-99 | after any recording and its final close, all markers say how many shader records were emitted while they were open if and only if none had been emitted when the last marker but one was inserted |
| Recording.ThirdMarkerMiscounts | driver/ControlListUtil.c:69-99 | the recording of three markers with one record each: the third marker says two |
| MarkerFields.FieldsSayWhatWasStored | driver/ControlListUtil.c:45-100 | over all recordings: each field that closing does not compute says, in each marker, what was stored to it last while that marker was the current one, and 0 if nothing was |
| MarkerFields.DrawsSaid | driver/draw.c:638 | each marker of a recording, once closed, says how many draws were counted while it was the current one |
| Beginning.AllocateBuffer | driver/command.c:130-203 | seven lists with a block each, in the order of the free list, apart from each other and from all other lists of the pool, exactly if the pool has seven blocks |
| Beginning.InsertFirst | driver/ControlListUtil.c:45-85 | with its first marker it is a command buffer that is being recorded, and holds nothing else: no draw, no image, no flag, all ranges from 0 |
| Tapes.HoldsNothing | driver/ControlListUtil.c:33-43 | new lists hold the empty recording |
| Tapes.RecordMarker | driver/ControlListUtil.c:45-85 | on the heap, inserting a marker is the recording step, so lists that held a recording hold the longer one, and the marker is new |
| Tapes.RecordCommands | driver/ControlListUtil.c:102-108 | the same for commands |
| Tapes.RecordBytes | driver/ControlListUtil.c:102-108 | the same for handles, shader records and uniforms |
| Tapes.RecordHandle | driver/draw.c:387-390 | the same for entering a handle through the marker's own fields, which also gives its position in the marker's table |
| Tapes.RecordCount | driver/draw.c:202 | the same for counting a shader record |
| Tapes.RecordField | driver/draw.c:638 | the same for a store to a field of the marker that closing leaves alone |
| Tapes.RecordDraw | driver/draw.c:689 | the same for counting a draw in the current marker |
| Tapes.RecordFit | driver/common.c:534-550 | making room, which may move a list, leaves the recording as it is |
| Submission.Submit | driver/command.c:357-732 | the walk visits the recorded markers, each once and in order, closes the last one, and hands over the ranges each governs |
| Tapes.JobCountsExact | driver/command.c:593-597 | the shader record counts in the jobs for a recording are right if and only if no record was emitted before the last marker but one was inserted |
| Relocation.RewriteKeepsMeaning | driver/command.c:1021-1031 | a relocation loop leaves every index word naming the same handle, changes no other byte, only appends to the primary's table and never enters a handle twice |
| Relocation.RewriteAllKeepsMeaning | driver/command.c:1021-1052 | the same for the three lists of a secondary, one loop after the other with a growing table |
| Relocation.ExecuteOneCarries | driver/command.c:1006-1067 | one secondary: its bytes stand in the primary with their meaning, all that was recorded before keeps its place and meaning, and its shader records and draws are added to the primary's |
| Relocation.ExecutePreservesMeaning | driver/command.c:1006-1067 | any list of secondaries, each executed once: each stands in the primary where its turn puts it, every index word naming the handle it named before, and so do the indices emitted before; shader records and draws add up; no other byte recorded before changes |
| Relocation.ExecuteAddsUp | driver/command.c:1057-1066 | after any list of secondaries the primary's record count and its marker's number of draws are what they were and the secondaries' sums, in 32 bits |
| Relocation.ExecuteLengths | driver/command.c:1054-1064 | nothing but the secondaries' commands, uniforms and shader records is appended |
| RelocationLoops.EnterHandle | driver/command.c:1027-1028 | clFit and clGetHandleIndex on the primary's table; it ends early exactly if the pool cannot serve the list or the marker pointer is stale |
| RelocationLoops.RewriteList | driver/command.c:1021-1031 | a loop over loads and stores leaves what the rewriting on values says, other lists keep what they show, and it ends as foretold for the handles it enters |
| CommandBuffers.CloseSecondary | driver/command.c:1010-1019 | a secondary without a size is closed, its relocation sizes stored, and what it records is unchanged |
| ExecuteCommands.RewriteSecondary | driver/command.c:1021-1052 | the three loops on heap lists rewrite the secondary in place as specified |
| ExecuteCommands.AppendSecondary | driver/command.c:1054-1067 | commands, draw count, uniforms, shader records and record count come behind the primary's, the record counts added, exactly if the three lists can be served one after the other |
| ExecuteCommands.ExecuteOne | driver/command.c:1006-1067 | the loop body computes execution on values, adding record count and draws, or ends early exactly as foretold from where the lists lie |
| ExecuteCommands.ExecuteCommands | driver/command.c:989-1070 | how the command ends is foretold from where the primary's lists lie before it, and what all stores of a completed one leave is the execution whose meaning is proved, with the counts of all command buffers added up; with room everywhere it completes, and a single secondary never meets a stale pointer |
| Forecast.EndsExactly | driver/command.c:989-1070 | when the other lists have room, the pointer is used after the marker has moved if and only if a secondary with an index word comes after the binning list has moved; and the command ends without that if and only if none does and the binning list can be served each time |
| Forecast.TableInOrder | driver/command.c:1021-1052 | the primary's table takes in the handles that uniforms name, then those of the binning commands, then those of the shader records |
| Forecast.AppendsInTurn | driver/command.c:1054-1064 | a secondary is appended exactly if the clFits of binning list, uniforms and shader records are served one after the other in this order |
| Reexecution.AgainExactly | driver/command.c:1021-1052 | an executed secondary names the same handles with its own table if and only if that table has each of them where the primary's table has it first once all are entered |
| Reexecution.CarriedAgainExactly | driver/command.c:1006-1067 | executed again into any primary, it stands there with the meaning it was recorded with in exactly the same cases |
| Reexecution.LostAgain | driver/command.c:1021-1031 | one index word for handle 7, executed over a table that holds 3: the second time it is beyond the secondary's table, or names handle 9 if that is there |
| Reexecution.SpentIsLeft | driver/command.c:1021-1052 | what the secondary's lists hold after the three loops is that executed secondary |
| StaleWitness.StaleReached | driver/command.c:1000-1067 | three command buffers allocated from a created pool of any size, one of them recorded until its binning list moved: its commands then move the primary's binning list, and the index word of the next secondary is entered through the pointer to where the marker was |
| StaleWitness.AfterHistory | driver/command.c:130-137 | the allocations and the growth that lead there are a legal run of the pool, and what it leaves of the free list |
| DrawSpec.OffsetsAreTheIndexWords | driver/draw.c:202-677 | whatever is drawn into a secondary, the recorded offsets are exactly the positions of all index words, each once and in order, and each word resolves to the handle it was written for |
| DrawSpec.DrawnThenExecuted | driver/command.c:1006-1067 | drawing and then executing: in the primary every index word names the buffer the draw named |
| DrawLaws.UniformHandleWritten | driver/draw.c:387-400 | byte by byte: the uniforms grow by one word that names the handle, and its position is noted |
| DrawLaws.IndexBufferWritten | driver/ControlListUtil.c:501-511 | byte by byte: opcode 254, a word that names the index buffer, four zero bytes; the position noted is that of the word |
| DrawLaws.ShaderRecordWritten | driver/draw.c:202-352 | byte by byte: a word that names each code and attribute buffer, in order and noted where it stands, then the 36 bytes of the record, then the attributes |
| DrawLaws.StagesStand | driver/ControlListUtil.c:535-573 | where the parts of the fragment, vertex and coordinate stages stand in the record, and which four bytes are left as they were |
| Drawing.DrawUniformHandle | driver/draw.c:387-400 | index into the uniforms and its offset into the relocations, through lists that may move while they grow; succeeds exactly if the pool serves the three clFits one after the other |
| Drawing.DrawIndexBuffer | driver/draw.c:667-678 | the same for the index buffer in the binning list; succeeds exactly if the binning list has nine bytes of room and the pool serves the two clFits |
| Overrun.CrampedBuffer | driver/draw.c:667-670 | in a new pool, a command buffer with less than nine bytes of room in its binning list, right in front of its handle list |
| Overrun.DrawnWithoutRoom | driver/draw.c:667-670 | drawing with an index buffer then does not find its room |
| Overrun.RestGoesBehind | driver/draw.c:670 | the bytes for which there is no room are the first bytes of the list behind |
| Drawing.DrawnCanBeExecuted | driver/draw.c:202-677 | the lists a draw leaves are a recorded secondary in the sense the relocation needs |
| ShaderRecords.EmitShaderRelocation | driver/ControlListUtil.c:622-635 | the index goes where the copied cursor stands, not behind the list |
| ShaderRecords.NoteOffsets | driver/draw.c:237-256 | the offsets of the three code addresses and of all attributes are recorded before the words exist, exactly if the pool serves both clFits |
| ShaderRecords.InsertShaderRecord | driver/ControlListUtil.c:514-573 | three index words through the copied cursor while the record grows behind them; four of its bytes are what was there before |
| ShaderRecords.DrawShaderRecord | driver/draw.c:202-352 | for every number of attributes up to eight, the words written through the copied cursor stand exactly at the offsets recorded beforehand; succeeds exactly if the pool serves the four clFits in their order |
| Places.AllServedInRoom | driver/common.c:534-550 | requests on several lists are all served, and the pool is left alone, when each list has room for what is asked of it |
| FifoQueue.QueuePush | driver/fifo.c:46-66 | linking a new element in front of the first keeps prev and next inverse and all elements on distinct blocks |
| FifoQueue.QueuePop | driver/fifo.c:97-113 | unlinking the oldest element keeps both directions of the list inverse |
| FifoQueue.Fifo.Create | driver/fifo.c:9-20 | an empty queue for maxElems records over two pools |
| FifoQueue.Fifo.Add | driver/fifo.c:31-67 | the record comes behind all others exactly if the queue is not full; queued and free blocks still partition both pools, though free links overlay elements |
| FifoQueue.Fifo.GetLast | driver/fifo.c:69-79 | a pointer to the record that leaves next, or 0 exactly if there is none |
| FifoQueue.Fifo.Remove | driver/fifo.c:93-122 | records leave first in, first out; removal fails exactly on an empty queue |
| FlipProtocol.NextKeeps | driver/modeset.c:28-486 | every step of every thread keeps the invariant, and follows a null pointer only by presenting to a full queue |
| FlipProtocol.ImagesReturnShownAndInOrder | driver/modeset.c:34-486 | in every interleaving images come back in presentation order; one with a sequence number only after the GPU was seen to finish it, in FIFO mode only after its own flip event, and in immediate mode only after its own flip was asked for |
| FlipProtocol.OnlyTheLastEntryMoves | driver/modeset.c:40-424 | in every reachable state all entries but the last are as presented, and what the flip thread waits for, the acquirer watches and the kernel points to is that last entry |
| FlipProtocol.CrashesExactlyWhenFull | driver/fifo.c:31-45 | a run crashes if and only if it presents an image while two are queued |
| FlipProtocol.ThirdPresentCrashes | driver/modeset.c:468-484 | three presents in a row: a run that does |
| FlipProtocol.RefusedForever | driver/modeset.c:62-67 | once the last entry waits for a flip without an outstanding event, no image ever comes back, whatever else happens |
| FlipProtocol.BlockedExactlyWhenRefused | driver/modeset.c:28-486 | in every reachable state with images queued, nothing can ever come back if and only if that is so, and otherwise some continuation returns the last entry's image next |
| FlipProtocol.RefusedOnce | driver/modeset.c:62-67 | a run from the start that is blocked by the first flip being refused |
| FlipWaits.LastFinishedIsHighest | driver/kernelInterface.c:317-356 | in every run what the flip thread remembers as finished is the highest seqno it has waited for with success, and 0 before the first |
| FlipQueue.FlipQueue.Look | driver/modeset.c:40-49 | the critical section on bytes is the protocol's step |
| FlipQueue.FlipQueue.MarkDone | driver/modeset.c:58-74 | the same; the data pointer given to the kernel is the last entry's, and the kind of flip asked for is that of its image |
| FlipQueue.FlipQueue.PageFlipEvent | driver/modeset.c:346-363 | the same, through the kernel's data pointer |
| FlipQueue.FlipQueue.ReadLast | driver/modeset.c:369-423 | the same, for both places where the acquirer looks |
| FlipQueue.FlipQueue.Take | driver/modeset.c:416-425 | the same; the image returned is the last entry's |
| FlipQueue.FlipQueue.Present | driver/modeset.c:468-484 | the same; on a full queue it stops exactly where the step crashes |
| Swapchain.ChooseSound | driver/wsi.c:502-514 | the image handed out is in flight if and only if all images are |
| Swapchain.ChooseNearest | driver/wsi.c:502-514 | of all images that are not in flight, the one handed out is the nearest behind the last one handed out, which itself comes last |
| Swapchain.ClearedOnly | driver/wsi.c:487-500 | returning an image takes the first one with its address out of flight and no other |
| Swapchain.Swapchain.AcquireNextImage | driver/wsi.c:487-514 | the returned image's flag is cleared if it is of this swapchain, and the index is that of the nearest image behind the last one that is not in flight |
| Presentation.FlagsSayWhatIsQueued | driver/wsi.c:487-570 | for one application acquiring and presenting in turn, in every interleaving: the flags say exactly which images are queued, the image held is not in flight, and the queue never overflows |
| Presentation.TurnAbout | driver/wsi.c:487-516 | the image handed out is the next one in the swapchain, and never the one just taken back unless there is only one |
| Presentation.ImagesTakeTurns | driver/wsi.c:487-570 | over whole runs: the k-th image presented is image k modulo the number of images, so none is passed over and with two or more none is shown twice in a row |
| BindingMap.GetIndex | driver/map.c:3-9 | the hash is a slot, whatever the shift by 32 minus the number of slots yields |
| BindingMap.IndexIs | driver/map.c:3-9 | up to 32 slots: the highest bits of the low word of the product with 1737350767, one for each slot, reduced to a slot |
| BindingMap.Map.constructor | driver/map.c:42-58 | an empty map with room |
| BindingMap.Map.Probe | driver/map.c:17-18 | the probe loop ends, at the key's slot or at the empty slot where it belongs |
| BindingMap.Map.Get | driver/map.c:11-19 | the last value set for the key, null if there is none |
| BindingMap.Map.Set | driver/map.c:21-30 | the map afterwards is the finite map with that key updated, and all other keys are still found |
| BindingMap.Map.SearchEndlessExactly | driver/map.c:17-18 | the probe sequence of a key meets no slot to stop at, however far it goes, if and only if the key is not in the map and the map has as many keys as slots |
| BindingMap.OneSlotFull | driver/map.c:17-30 | a map with one slot that has been set: the search for any other key never ends |
| Packets.CodePacks | brcm/cle/gen_pack_header.py:231-354 | the generated statements give every byte exactly the bits its fields put there, copied words included |
| PacketRoundTrip.UnpackedRaw | brcm/cle/v3d_packet_helpers.h:158-170 | the unpacker's loop gives back a field's bits |
| PacketRoundTrip.SignComesBack | brcm/cle/v3d_packet_helpers.h:172-180 | sign extension undoes the masking of negative values |
| PacketRoundTrip.PackThenUnpack | brcm/cle/gen_pack_header.py:231-396 | for every layout of fields that do not overlap and stay within 32 bits of their first byte, every value in range comes back, whatever the buffer held |
| PacketRoundTrip.PackedBits | brcm/cle/gen_pack_header.py:231-354 | every bit of the packet is a field's bit or 0, whatever the buffer held |
| PacketRoundTrip.FieldStands | brcm/cle/gen_pack_header.py:231-354 | bit i of the value of a field, or of one less if it is stored so, in two's complement, is bit start + i of the packet; a must-be-one field is all ones |
| PacketRoundTrip.RestIsZero | brcm/cle/gen_pack_header.py:231-354 | a bit of no field is 0 |
| PacketGenerator.CollectBytes | brcm/cle/gen_pack_header.py:216-229 | the dictionary lists, for every byte, exactly the fields with bits in it, in order |
| PacketGenerator.EmitPackFunction | brcm/cle/gen_pack_header.py:231-354 | the generator's loops with their set of copied fields emit exactly the code proved above |
| PacketGenerator.Pack | brcm/cle/gen_pack_header.py:231-354 | executing the statements in place on a buffer is running them on its bytes |
| PacketGenerator.GenUnpackUInt | brcm/cle/v3d_packet_helpers.h:158-170 | the accumulating loop computes the unpacked field |
| SpecBuilder.SortedInOrder | brcm/cle/v3d_decoder.c:518-562 | finished fields are those described, in the order of their offsets |
| SpecParser.SkippingIsPruning | brcm/cle/v3d_decoder.c:424-593 | for every element tree, streaming with the one skip counter builds exactly what building the tree pruned of all mismatched subtrees builds, or fails exactly when that does; the counters return to zero |
| SpecParser.PrunedIsFor | brcm/cle/v3d_decoder.c:424-441 | every element left by pruning is for this version, and a document whose elements all are loses nothing |
| SpecContext.ParserContext.AppendGroup | brcm/cle/v3d_decoder.c:496-505 | the walk along next pointers appends the group at the end of the list |
| SpecContext.ParserContext.StringToType | brcm/cle/v3d_decoder.c:304-337 | structs are looked up before enums, and both before mbo |
| SpecContext.ParserContext.StartElement | brcm/cle/v3d_decoder.c:443-516 | the handler's updates of the context are the parser's step |
| SpecContext.ParserContext.EndElement | brcm/cle/v3d_decoder.c:525-593 | the same for closing tags |
| SpecContext.ParserContext.Parse | brcm/cle/v3d_decoder.c:443-593 | a whole document leaves what building the pruned document leaves |
| SpecMeaning.BodyBuilt | brcm/cle/v3d_decoder.c:490-591 | inside a packet, fields, nested groups and their links end up as the tree says, and the current group is restored |
| SpecMeaning.ParserMeansWhatIsLeft | brcm/cle/v3d_decoder.c:424-593 | for every document that is well formed once pruned, the parser ends with the specification read off the pruned tree, or stops exactly if it has none |
| SpecFields.KindRefers | brcm/cle/v3d_decoder.c:304-337 | a type is the first struct of that name, or the first enumeration if there is no such struct, or mbo if there is neither; it is refused exactly if it is none of these |
| SpecFields.EntriesParsed | brcm/cle/v3d_decoder.c:339-593 | every packet, struct, register and enumeration of a parsed document is in its table with the name and number of its element; every field has exactly the size its element gives, from the start it gives, or ends where it says, 8 bits further on in packets, with its name, default, flag and values; every group inside has its offset, count and size |
| SpecFields.ParserStops | brcm/cle/v3d_decoder.c:424-593 | the parser stops exactly at a root without a version, or at an entry whose table already holds 256, that has more than 256 values, or a type that names nothing |
| PowersOfTwo.SmearDoubles | driver/common.c:948-957 | each shift-and-or doubles how far every bit reaches down |
| PowersOfTwo.Pow2PadIsLeast | driver/common.c:948-957 | no smaller power of two reaches the number |
| PowersOfTwo.GetPow2Pad | driver/common.c:948-957 | the bit tricks compute that power of two, and 0 for 0 and above 2 to the 31 |
| MipLevels.RoundUpIsLeast | driver/common.c:307-322 | the next multiple |
| MipLevels.TilingIsPrefix | driver/resource.c:364-404 | every level has the tiling its size asks for, and below a level in LT format all are |
| MipLevels.SmallestFirst | driver/resource.c:366-411 | no level takes more room than the larger one, across the jump from the image's own size to powers of two and from T to LT rounding |
| MipLevels.SizeIsWhole | driver/resource.c:390-409 | a level is a whole number of microtiles, a T level of 8x8 microtiles |
| MipLevels.LevelsApart | driver/resource.c:362-422 | levels do not overlap and neighbours lie back to back, the smallest first |
| MipLevels.LevelsInLayer | driver/resource.c:412-424 | every level ends within the page-rounded layer, level 0 starts at a page, and no page is wasted |
| MipLevels.LevelsAligned | driver/resource.c:362-422 | every T level starts at a page, though only level 0 is put there, and every level at a microtile |
| MipSides.AsDocumented | driver/common.c:218-242 | levels against the documented tiles: one that fits half a 4 KB tile on one side is LT and rounded up to an eighth of a tile on both, others are rounded up to whole tiles |
| MipSides.LinearPadded | driver/resource.c:378-389 | linear levels are rounded up in width to a microtile, multisampled ones to 32 pixels on both sides |
| MipSides.SidesHalve | driver/resource.c:355-376 | level 0 has the image's sides; behind it they are powers of two that halve down to 1, from the least that holds the image |
| ImageLayout.Image.LevelExtent | driver/resource.c:378-404 | the branches round each level as the layout says |
| ImageLayout.Image.GetMemoryRequirements | driver/resource.c:329-432 | the loops in 32-bit arithmetic fill offsets, tilings, size and stride with the layout, if it fits 32 bits |
| BitFields.ExtractAssembled | QPUassembler/qpu_assembler.c:162-217 | fields that tile a word can be read back as far as their masks go |
| BitFields.AssembleExtracted | QPUassembler/qpu_assembler.c:1102-1106 | a word put together from its own fields is the word |
| QpuCodec.Classified | QPUassembler/qpu_assembler.c:1102-1313 | an encoded word is classified as the kind it was built as, unless an ALU instruction has the signal of a load or branch |
| QpuCodec.DecodeEncoded | QPUassembler/qpu_assembler.c:138-455 | for all fields in range, decoding recovers the instruction if and only if it is not such an ALU instruction |
| QpuCodec.EncodeDecoded | QPUassembler/qpu_assembler.c:1102-1461 | re-encoding a decoded word gives the word if and only if its load mode is known and, for a branch, bits 56 to 59 are zero |
| QpuCodec.UnknownModeIsLost | QPUassembler/qpu_assembler.c:1184-1190 | the word with mode 0x72, read as a load, does not come back |
| QpuFields.EncodedPlaced | QPUassembler/vc4_qpu_defines.h:322-410 | every field of every kind of instruction stands at its documented bits of the encoded word, with the width it has there |
| QpuFields.DecodedPlaced | QPUassembler/vc4_qpu_defines.h:322-410 | the fields of a decoded word are its bits at those places exactly if the word is encoded back to itself |
| QpuFields.KindsByBits | QPUassembler/qpu_assembler.c:1102-1313 | which bits of a word decide what kind of instruction it is |
| QpuEncoders.EncodeAlu | QPUassembler/qpu_assembler.c:138-219 | the accumulating statements make that word, every field at its bits: the add opcode in bits 24 to 28, the multiply opcode in 29 to 31, and so on |
| QpuEncoders.EncodeAluSmallImm | QPUassembler/qpu_assembler.c:221-258 | the same with the small-immediate signal |
| QpuEncoders.EncodeBranch | QPUassembler/qpu_assembler.c:260-300 | the statements make the branch word, every field at its bits; the target is not masked |
| QpuEncoders.EncodeSemaphore | QPUassembler/qpu_assembler.c:302-354 | the same for semaphores |
| QpuEncoders.EncodeLoadImm | QPUassembler/qpu_assembler.c:357-401 | the same for 32-bit loads |
| QpuEncoders.EncodeLoadImmPerElem | QPUassembler/qpu_assembler.c:404-455 | the same for 16-bit loads |
| QpuEncoders.SmallImmediatesAgree | QPUassembler/vc4_qpu_defines.h:78-121 | a value has a small immediate if and only if that immediate stands for it in the disassembler |
| QpuEncoders.ImmediatesAre | QPUassembler/vc4_qpu_defines.h:78-121 | the integers from -16 to 15 by their five low bits, and the floats that are powers of two from 1/256 to 128 from 32 on |
| DescriptorLayout.SlicesDisjoint | driver/descriptorSet.c:187-232 | two elements of bindings of one class never share a place |
| DescriptorLayout.SlicesCover | driver/descriptorSet.c:136-232 | the places in the array are exactly those of some binding's elements |
| DescriptorLayout.PositiveCountsSuffice | driver/descriptorSet.c:192-232 | if every binding has descriptors, each finds a place in the array and a slot in the map |
| DescriptorLayout.RoomExactly | driver/descriptorSet.c:187-232 | for distinct binding numbers, every binding finds a place in the array and a slot in the map if and only if each has a binding with descriptors of its class at or behind it and no class has more bindings than descriptors |
| DescriptorLayout.ReservedBindingFails | driver/descriptorSet.c:195-209 | an empty binding behind another of its class would be described beyond the array; in front of it there is room exactly if the other has two descriptors |
| DescriptorLayout.ClassesAre | driver/descriptorSet.c:141-159 | which descriptor types are images, buffers and texel buffers |
| DescriptorSets.DescriptorSet.CountDescriptors | driver/descriptorSet.c:136-163 | the descriptors of each class |
| DescriptorSets.DescriptorSet.Allocate | driver/descriptorSet.c:119-232 | succeeds exactly if all bindings find room, and then every binding's key leads to its own slice, headed by its count, type and stages |
| DescriptorSets.DescriptorSet.DescribedByFirst | driver/descriptorSet.c:197-224 | the key of a binding leads behind the descriptors of its class before it, to one that says its count, type and stages |
| DescriptorSets.DescriptorSet.Update | driver/descriptorSet.c:291-345 | after any sequence of writes inside slices, every element of every binding holds what was last written to it, or what it held before |
| DescriptorSets.DescriptorSet.Lookup | driver/draw.c:383-385 | looking up binding and element finds that value |

## Left out

- ioctl, DRM, mmap and `/proc` access, surface and thread creation: the GPU is a finished sequence number that only grows, a page flip an event that may come at any time, and the protocol starts initialised.
- Debug builds: `memset` of freed and fresh memory, and the driver's asserts, which a release build compiles to nothing.
- 64-bit targets: pointers are 32-bit numbers, as on the Raspberry Pi.
- Reallocate: shrinking is not modelled; every caller in the driver grows, and the code would copy beyond the new run.
- Fit: when the pool cannot serve the request, nothing is claimed about the list, which the driver then corrupts.
- ExecuteCommands: when the pool is lost or the primary's marker pointer is stale, nothing is claimed about the primary from there on. The stale pointer reads a freed block, whose bytes last until the block is handed out again and only its link is overwritten, so the driver may still read what it expects; the model stops at the first such read. All lists live in one command pool of at most 1 GB (the driver creates 2 MB, driver/command.c:53-55), secondaries hold one marker, and each is executed once, since its indices are rewritten in place.
- Submit: the walk and its closing only. The image handles that each round enters into the handle list (driver/command.c:384-390), the render targets, the submit ioctl and submitting a command buffer a second time are not part of this model; the job handed to the kernel is the marker with its ranges.
- Recording: a command buffer begins with a marker, and every list is shorter than the 32-bit offsets.
- DrawShaderRecord: at most eight attributes, as many as the driver reserves room for; the contents of the records are parameters, including the byte that `clInsertShaderRecord` combines with what stood there before.
- AllocateBuffer: when the pool has too few blocks, the driver gives back what it got, and more; the method stops.
- DrawIndexBuffer: where the nine bytes of relocation packet do not fit, the driver goes on and the method stops.
- The uniforms that are not handles (push constants, texture parameters) are appended bytes.
- Add: `fifoAdd` copies the record before it looks whether it got memory; on a full queue, where that goes through a null pointer, the method stops. FlipProtocol models it as a crash.
- `fifoGetFirst`, queue and pool destruction and debug printing.
- FlipProtocol: one acquirer at a time, as the driver needs; the mode of an image does not change; requests carry any sequence number.
- Presentation: one swapchain and one application thread; several swapchains on the one global queue are covered by FlipProtocol only.
- Map: hash values are any function into the table, since what `getIndex` shifts by for more than 32 slots is undefined in C; keys are set with data that is not null, and `deleteMapElement`, which breaks probe sequences, is left out. The methods require that the search ends.
- DescriptorSets: one set at a time, with the arrays and map slots its pools provide; descriptor copies, freeing sets and resetting pools are left out; writes stay inside one binding.
- DescriptorSet.Allocate: where a binding finds no room, the code writes outside its array or searches a full map for ever, and the method stops.
- Packets: float, f187, fixed-point, address and offset fields, nested structs and enum names; a field reaches at most 32 bits from the start of its first byte, as the unpacker needs.
- QpuCodec: instructions are fields, not text; `strtok` parsing and `printf` formatting are left out.
- SpecBuilder: attributes are numbers and names already; elements have names; fields with equal offsets are sorted in their order of appearance, which `qsort` does not promise; inflating the compressed descriptions, the XML parser itself and the choice of a description file are left out.
- ParserMeansWhatIsLeft: trees that are not well formed (a packet inside a packet, values outside a field or enum) are covered by SkippingIsPruning only.
- GetMemoryRequirements: images up to 2 to the 31 pixels wide or high (the driver allows 2048) in the formats whose microtile the driver knows; when sizes do not fit 32 bits only the tilings are claimed. LevelsAligned leaves out 24 bits per pixel, whose microtile is 48 bytes.
- Format tables, capability tables, object creation that only copies fields, unsupported stubs, the profiler and the canned shaders.
