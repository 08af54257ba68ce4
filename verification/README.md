# Verification of the FR5080 DSP firmware core

A Dafny model of the self-contained, stateful parts of the FR5080 audio DSP firmware, and proofs
about them. The parts build on each other as they do in the firmware: a heap, a linked list, a
message queue that uses both, and the audio pipelines at both ends of the codecs.

`dafny verify dfyconfig.toml` checks everything.

## How it is built

| files | what they hold |
|---|---|
| `Machine.dfy` | 32-bit words, bytes, and small sequence functions |
| `HeapModel.dfy`, `HeapRuns.dfy` | heap_4 as its callers see it: an address-ordered free list, a map of live blocks; what holds over runs |
| `HeapMemory.dfy`, `Heap.dfy` | heap_4 in memory: headers, the chain from `xStart` to `pxEnd`, the walking loops, proved to do what the model says |
| `Ring.dfy`, `DecoderModel.dfy`, `DecoderRuns.dfy`, `DecoderMessages.dfy`, `Decoder.dfy` | the mSBC decoder's ring, linear buffer and credit protocol: as a state machine, over whole sessions, and in place on two arrays |
| `Playback.dfy` | the PCM chunk queue drained 512 bytes per interrupt |
| `EncoderModel.dfy`, `FrameQueue.dfy`, `Encoder.dfy` | the mSBC encoder's input loop; its bounded drop-oldest queue and reply packets; both in place |
| `CoList.dfy`, `TaskModel.dfy`, `Tasks.dfy` | the intrusive list, its links words of heap blocks; the message scheduler as a state machine, and on list and heap |
| `NumberText.dfy`, `NumberLaws.dfy`, `Printf.dfy`, `PrintLaws.dfy` | number printing and parsing, the formatter, and what they print and read said in terms of numerals |

Code that the firmware writes as loops over fields and buffers is here a class with those fields and
methods with those loops. Each such method is proved equal to a step of a pure model
(`HeapModel`, `DecoderModel`, `EncoderModel`, `FrameQueue`, `TaskModel`, `NumberText`), and the results over all
runs are lemmas about that model.

The central ideas:

- **Heap.** A free list that is sorted and never holds two touching blocks is the only such list for
  its set of free bytes (`CanonicalUnique`). Insertion with merging adds exactly the bytes of the
  block; allocation removes exactly the bytes taken. So the free list is a function of the live
  blocks, freeing undoes allocating, and freeing everything in any order rebuilds the first block.
- **Decoder.** Bytes used by the codec, then the unused end of its buffer, then the ring, are the
  received stream. Ring bytes, unused bytes, bytes still to come and bytes used since the last grant
  together never fall below 31 frames. With that, the flow of credits goes on in every session whose
  IPC channels are free and whose codec does not refuse its data (`FlowGoesOn`).
- **Encoder.** The input loop is shown to depend on the bytes alone, not on how they are delivered,
  and to end exactly for codecs that use every full buffer in the end.
- **Numbers.** Reading back what was printed is the identity except when zeros are appended on the
  right, and then it never is for a nonzero number.

Interrupts come between steps. Receptions interrupt the decoder's handler between any two of its
steps (`DecoderModel.Place`), frames are encoded between any two pops of a request
(`FrameQueue.Event`), and a message is its sender's between allocation and insertion
(`TaskModel.Event`); the results over runs hold for all such interleavings. A method that can be
interrupted is given a schedule of events, and is proved to execute it. Regions between
`GLOBAL_INT_DISABLE` and `GLOBAL_INT_RESTORE` are atomic.

The codec library is an oracle for how many bytes it used, whether it is initialised and what it put
out: for the decoder any answers whatever, for the encoder any function of all the calls made and the
buffers given. A free IPC channel is an input of each step. Memory is one 32-bit word per byte address,
of which heap_4 only uses the aligned ones; the place and size of the heap and the address of `xStart`
are parameters.

## What the code does not do

- **The decoder can stop for good, for one of two reasons.** `msbc_decoder_engine_decode` returns at
  lines 170-172, before it reaches the request at line 260, when the last call used nothing and nothing
  new has come; with all granted data received, the MCU then waits for a grant that never comes
  (`StuckForever`, `GrantPossibleIff`). One way there is that no IPC channel is free in the call in
  which the codec uses the last granted byte, nor in the next one (`StarvationReachable`). The other is
  that the codec uses nothing in two calls although it is given a full buffer, or more than 23 frames
  (`RefusalReachable`, for every buffer size). `FlowGoesOn` shows that with free channels this is the only way.
- **A second session inherits the first one's buffer level.** `msbc_decoder_init` does not reset
  `i_buff_size` and `i_bytes_consumed`. `RestartStreamIff` shows that in every second session the codec
  uses a prefix of what was received if and only if the first session left nothing unused;
  `LeftoverReachable` gives a session that leaves something.
- **The encoder's input loop may not end.** On a given input, from a given state, it ends if and only if
  every full buffer that comes up makes progress after some number of calls (`SettlesHereIff`; over all
  states and inputs, `SettlesIff`). With a codec that refuses everything, one byte more than the buffer
  holds keeps a new encoder in the loop for good (`StallReachable`).
- **A packet need not hold consecutive frames.** It holds the oldest four, or all there are, if and only
  if no frame met a full queue while the request was served (`PacketIsOldestIff`); from a full queue, two
  frames encoded after the first pop make the packet skip one (`SkippedFrame`).
- **A packet's header is the length of its last frame.** A receiver that splits by it recovers the frames
  if and only if they all have that length (`UnpackIff`); frames of one and two bytes come out as two
  and one (`UnequalFrames`).
- **The variable `left_space`** at lines 264-274 of `msbc_decoder.c` holds the occupied, not the free, bytes.
- **The double free guard** of heap_4 helps only until the old header is handed out again
  (`SecondFreeIsIdle`, `FreeIdleIff`): after the same request has been served once more, the second
  free releases the block of its new owner (`ReusedBlockIsReleased`).

## Model

| member | source | states |
|---|---|---|
| Heap.SpanExact | fr5080_basic/src/lib/heap_4.c:255-288 | the first block starts at the first multiple of eight in the heap's memory, the end marker at the last one that leaves it eight bytes |
| Heap.Allocator.AlignedEnds | fr5080_basic/src/lib/heap_4.c:259-288 | the alignment arithmetic never wraps and gives the first block and the end marker of the configured span |
| Heap.Allocator.constructor | fr5080_basic/src/lib/heap_4.c:52-97 | before the first call there is no end marker, no byte is free and no top bit is set |
| Heap.Allocator.HeapInit | fr5080_basic/src/lib/heap_4.c:255-300 | memory then represents one free block from the first aligned address to `pxEnd`, with both counters at its size |
| Heap.Allocator.FindPlace | fr5080_basic/src/lib/heap_4.c:308-313 | the walk ends at the last header below the block, whatever the list |
| Heap.Allocator.MergeIn | fr5080_basic/src/lib/heap_4.c:315-352 | exactly which words change when the block is merged left, right, both ways or not at all |
| Heap.Allocator.InsertBlock | fr5080_basic/src/lib/heap_4.c:303-353 | the chain in memory becomes the canonical list with the block merged in; no word outside free blocks changes but the sentinel's link, and no size word gains its top bit |
| Heap.Allocator.FindFit | fr5080_basic/src/lib/heap_4.c:139-147 | the search stops at the first block large enough, or at `pxEnd` |
| Heap.Allocator.Round | fr5080_basic/src/lib/heap_4.c:120-135 | rounding below the top bit never wraps |
| Heap.Allocator.SplitOff | fr5080_basic/src/lib/heap_4.c:161-178 | writing the two sizes and inserting the remainder leaves the chain with the remainder merged in |
| Heap.Allocator.Mark | fr5080_basic/src/lib/heap_4.c:180-190 | the counters follow the model and the block's header is marked as owned by the application |
| Heap.Allocator.Take | fr5080_basic/src/lib/heap_4.c:151-191 | taking a block, split or whole, brings memory to the model's next state |
| Heap.Allocator.Serve | fr5080_basic/src/lib/heap_4.c:116-199 | on a heap that is built, pointer and new state are those of the model, and no word of a live block changes |
| Heap.Allocator.Malloc | fr5080_basic/src/lib/heap_4.c:101-199 | the pointer and the new state are those of the model, with the heap built on the first call; no word of a live block changes, header or payload |
| Heap.Allocator.Free | fr5080_basic/src/lib/heap_4.c:202-234 | a live block is freed as in the model; NULL, a call before the first allocation and a repeated free change no word of memory, and no free changes a word of the blocks that stay live |
| Heap.Allocator.Store | fr5080_basic/src/lib/heap_4.c:153-155 | whatever the application writes into its block, the allocator's state is unchanged |
| HeapModel.CanonicalUnique | fr5080_basic/src/lib/heap_4.c:303-353 | two sorted lists without touching blocks that cover the same bytes are the same list |
| HeapModel.InsertCanonical | fr5080_basic/src/lib/heap_4.c:308-339 | insertion keeps the list sorted and leaves no two touching blocks |
| HeapModel.InsertBytes | fr5080_basic/src/lib/heap_4.c:315-352 | insertion makes free exactly the bytes of the block |
| HeapModel.InsertSum | fr5080_basic/src/lib/heap_4.c:320-332 | merging adds the sizes exactly |
| HeapModel.TakingBytes | fr5080_basic/src/lib/heap_4.c:157-178 | removing and splitting a block takes away exactly the bytes handed out |
| HeapModel.InitInv | fr5080_basic/src/lib/heap_4.c:274-296 | the heap as built satisfies the invariant |
| HeapModel.MallocKeepsInv | fr5080_basic/src/lib/heap_4.c:101-199 | allocation keeps the list canonical and aligned and every byte in exactly one block |
| HeapModel.FreeKeepsInv | fr5080_basic/src/lib/heap_4.c:202-234 | so does freeing |
| HeapRuns.RunKeepsInv | fr5080_basic/src/lib/heap_4.c:101-234 | after any run, free and live blocks tile the region, aligned and disjoint, and the byte counter is the sum of the free sizes |
| HeapRuns.FreeListDetermined | fr5080_basic/src/lib/heap_4.c:303-353 | equal live blocks mean equal free lists and equal counters |
| HeapRuns.NothingLiveIsInitial | fr5080_basic/src/lib/heap_4.c:288-296 | with nothing live the heap is the single initial block |
| HeapRuns.FreeAllRestores | fr5080_basic/src/lib/heap_4.c:202-234 | freeing all live blocks in any order rebuilds the initial block |
| HeapRuns.MallocNullIff | fr5080_basic/src/lib/heap_4.c:116-151 | NULL exactly for size 0, a size with the top bit set, or no block that fits the rounded size; failure changes nothing |
| HeapRuns.MallocGives | fr5080_basic/src/lib/heap_4.c:139-190 | success takes the lowest-addressed fit, aligned, large enough, and at most 16 bytes more than rounded |
| HeapRuns.MallocExact | fr5080_basic/src/lib/heap_4.c:120-190 | which block is handed out and exactly how much of it: it is split if more than 16 bytes are left over, and then the rest is free; otherwise none of it is |
| HeapRuns.MallocPrivate | fr5080_basic/src/lib/heap_4.c:153-178 | the block was free, is free no longer and meets no other live block |
| HeapRuns.MallocThenFreeRestores | fr5080_basic/src/lib/heap_4.c:141-228 | freeing what was just allocated restores list, live blocks and byte counter |
| HeapRuns.MinEverIsLeast | fr5080_basic/src/lib/heap_4.c:180-185 | the low-water mark is the minimum of the byte counter over all states of the run |
| HeapRuns.MinEverFromInit | fr5080_basic/src/lib/heap_4.c:180-185 | in particular from the first state on |
| HeapRuns.SecondFreeIsIdle | fr5080_basic/src/lib/heap_4.c:216-228 | a second free changes nothing as long as no allocation has covered the old header, whatever was freed and merged in between |
| HeapRuns.FreeIdleIff | fr5080_basic/src/lib/heap_4.c:216-230 | a free by a pointer once returned changes nothing if and only if its header is not that of a live block |
| HeapRuns.ReusedBlockIsReleased | fr5080_basic/src/lib/heap_4.c:139-230 | a request served twice gets the same block, and a second free by the first owner releases it under the second |
| HeapRuns.FreePlusLiveConstant | fr5080_basic/src/lib/heap_4.c:180-227 | free bytes and live bytes add up to the region throughout a run |
| HeapRuns.RegionConserved | fr5080_basic/src/lib/heap_4.c:180-227 | the same for the sums of block sizes, from the initial heap |
| Decoder.MsbcDecoder.constructor | fr5080_msbc_decoder/src/msbc_decoder.c:64-89 | before the first session everything is zero |
| Decoder.MsbcDecoder.Reset | fr5080_msbc_decoder/src/msbc_decoder.c:610-636 | what a new session resets, with a first grant of 31 frames, and what it does not |
| Decoder.MsbcDecoder.Init | fr5080_msbc_decoder/src/msbc_decoder.c:604-640 | nothing happens without a free channel; with one a session starts, which satisfies the invariant if and only if nothing was left in the linear buffer |
| Decoder.MsbcDecoder.CopyIn | fr5080_msbc_decoder/src/msbc_decoder.c:704-718 | the ring gains the data at its end whether or not the copy wraps |
| Decoder.MsbcDecoder.WakeUp | fr5080_msbc_decoder/src/msbc_decoder.c:723-727 | an idle decoder with enough data gets its first message |
| Decoder.MsbcDecoder.CountDown | fr5080_msbc_decoder/src/msbc_decoder.c:690-700 | the outstanding credit falls by what arrived, and the flag is set when none is left |
| Decoder.MsbcDecoder.Receive | fr5080_msbc_decoder/src/msbc_decoder.c:675-728 | wherever the handler is, reception equals the model's step for any data the ring has room for |
| Decoder.MsbcDecoder.CopyOut | fr5080_msbc_decoder/src/msbc_decoder.c:137-141 | one copy takes the oldest bytes and wraps the output index at the end |
| Decoder.MsbcDecoder.GetData | fr5080_msbc_decoder/src/msbc_decoder.c:113-152 | returns exactly the oldest bytes, as many as asked for or there are, drops them from the ring, and recurses at most once |
| Decoder.MsbcDecoder.ShiftTail | fr5080_msbc_decoder/src/msbc_decoder.c:162-165 | the unused end of the linear buffer moves to its front, overlapping or not |
| Decoder.MsbcDecoder.FillUp | fr5080_msbc_decoder/src/msbc_decoder.c:162-168 | shift and refill equal the model's fill |
| Decoder.MsbcDecoder.Occupied | fr5080_msbc_decoder/src/msbc_decoder.c:268-275 | the index arithmetic gives the number of bytes in the ring |
| Decoder.MsbcDecoder.RequestMore | fr5080_msbc_decoder/src/msbc_decoder.c:259-295 | the credit logic equals the model's grant |
| Decoder.MsbcDecoder.CodecUses | fr5080_msbc_decoder/src/msbc_decoder.c:248-256 | what the codec reports is used up and added to the count since the last grant |
| Decoder.MsbcDecoder.EngineInit | fr5080_msbc_decoder/src/msbc_decoder.c:547-550 | a new buffer of the codec's size, of whose content a level left over makes data |
| Decoder.MsbcDecoder.Enter | fr5080_msbc_decoder/src/msbc_decoder.c:570-581 | the switch leads to the step that the model takes from each state |
| Decoder.MsbcDecoder.Check | fr5080_msbc_decoder/src/msbc_decoder.c:573-580 | the codec is created exactly when enough has been buffered |
| Decoder.MsbcDecoder.StartFilling | fr5080_msbc_decoder/src/msbc_decoder.c:305-311 | the fill of a start call equals the model's step |
| Decoder.MsbcDecoder.StartReport | fr5080_msbc_decoder/src/msbc_decoder.c:338-356 | so does the codec's report |
| Decoder.MsbcDecoder.StartRequest | fr5080_msbc_decoder/src/msbc_decoder.c:358-410 | so do the request for more and the flag that follows |
| Decoder.MsbcDecoder.AfterStart | fr5080_msbc_decoder/src/msbc_decoder.c:581-594 | a start that succeeds goes on to decode, one that fails posts a new attempt |
| Decoder.MsbcDecoder.DecodeFilling | fr5080_msbc_decoder/src/msbc_decoder.c:162-174 | the fill of a decode call and its early return equal the model's step |
| Decoder.MsbcDecoder.DecodeReport | fr5080_msbc_decoder/src/msbc_decoder.c:248-256 | so does the codec's report |
| Decoder.MsbcDecoder.DecodeRequest | fr5080_msbc_decoder/src/msbc_decoder.c:258-297 | so does the request for more |
| Decoder.MsbcDecoder.Interrupts | fr5080_msbc_decoder/src/msbc_decoder.c:670-728 | receptions between two steps are executed in the order of the schedule |
| Decoder.MsbcDecoder.EngineStart | fr5080_msbc_decoder/src/msbc_decoder.c:300-411 | a start call, failed or not, with whatever interrupts it, executes its part of the schedule |
| Decoder.MsbcDecoder.EngineDecode | fr5080_msbc_decoder/src/msbc_decoder.c:154-298 | so does a decode call, early return included |
| Decoder.MsbcDecoder.StartThenDecode | fr5080_msbc_decoder/src/msbc_decoder.c:581-597 | so do the two after one another |
| Decoder.MsbcDecoder.DoDecoderHandler | fr5080_msbc_decoder/src/msbc_decoder.c:565-602 | the state switch with its falling through, interrupted anywhere, executes exactly the events of the schedule up to its return |
| Decoder.MsbcDecoder.PrepareForNext | fr5080_msbc_decoder/src/msbc_decoder.c:670-673 | only the flag changes |
| Ring.Push | fr5080_msbc_decoder/src/msbc_decoder.c:704-718 | writing behind the input index appends to the window, across the wrap |
| Ring.EmptyIff | fr5080_msbc_decoder/src/msbc_decoder.c:119-131 | equal indices mean empty, never full |
| Ring.Pop | fr5080_msbc_decoder/src/msbc_decoder.c:133-141 | advancing the output index drops the oldest bytes |
| DecoderModel.UnitsFit | fr5080_msbc_decoder/src/msbc_decoder.c:276-289 | the unsigned subtraction never wraps, a grant leaves one frame of the ring unused and at least 31 frames at hand |
| DecoderModel.FillKeeps | fr5080_msbc_decoder/src/msbc_decoder.c:162-168 | a fill moves bytes along the stream and changes none |
| DecoderModel.ReceiveKeepsInv | fr5080_msbc_decoder/src/msbc_decoder.c:675-728 | reception within the credit keeps stream, bounds and credit, wherever the handler is |
| DecoderModel.FillKeepsCore | fr5080_msbc_decoder/src/msbc_decoder.c:162-168 | so does a fill |
| DecoderModel.UseKeepsCore | fr5080_msbc_decoder/src/msbc_decoder.c:248-256 | so does any report of the codec within what it was given |
| DecoderModel.GrantKeepsCore | fr5080_msbc_decoder/src/msbc_decoder.c:259-295 | so does the request for more |
| DecoderModel.NextKeepsInv | fr5080_msbc_decoder/src/msbc_decoder.c:565-602 | so does every step of the handler from every place |
| DecoderRuns.RunKeepsInv | fr5080_msbc_decoder/src/msbc_decoder.c:565-728 | the invariant holds in every state of every legal session, the middle of the handler included |
| DecoderRuns.SessionSafe | fr5080_msbc_decoder/src/msbc_decoder.c:260-294 | the codec has used a prefix of what was received, the rest is at hand in order, and ring plus credit leave a frame unused |
| DecoderRuns.ReachIsRun | fr5080_msbc_decoder/src/msbc_decoder.c:565-602 | executing a schedule from one index to another is running the events between them |
| DecoderRuns.GrantExact | fr5080_msbc_decoder/src/msbc_decoder.c:260-290 | exactly when more is asked for, and for how many frames |
| DecoderRuns.OpeningGrant | fr5080_msbc_decoder/src/msbc_decoder.c:622-632 | until the codec is created the MCU has been granted 31 frames in all |
| DecoderRuns.PreparedNeverAsks | fr5080_msbc_decoder/src/msbc_decoder.c:260-262 | once the next session is being prepared the credit never grows |
| DecoderRuns.GrantSuffices | fr5080_msbc_decoder/src/msbc_decoder.c:276-290 | after every grant at least 31 frames are at hand or on their way, more than the threshold of 8 |
| DecoderRuns.BufferingEnds | fr5080_msbc_decoder/src/msbc_decoder.c:573-580 | once the first grant has arrived the buffering limit is reached |
| DecoderRuns.EarlyReturnIff | fr5080_msbc_decoder/src/msbc_decoder.c:166-174 | when a decode call returns early: nothing used by the last call, which was not a start either, and nothing to add |
| DecoderRuns.StuckForever | fr5080_msbc_decoder/src/msbc_decoder.c:166-172 | from a state whose next decode returns early with all data received and no grant due, no event ever leads on |
| DecoderRuns.GrantPossibleIff | fr5080_msbc_decoder/src/msbc_decoder.c:166-172 | in any place of the handler, another grant is possible if and only if the state is not such a one |
| DecoderRuns.StarvationReachable | fr5080_msbc_decoder/src/msbc_decoder.c:263-266 | a legal session without free channels that gets there |
| DecoderRuns.RefusalReachable | fr5080_msbc_decoder/src/msbc_decoder.c:166-174 | for every buffer size, a legal session with free channels that gets there because the codec uses nothing in two calls |
| DecoderRuns.EagerGrants | fr5080_msbc_decoder/src/msbc_decoder.c:260-290 | from any other such state, a codec that uses something in each call gets its next grant within five steps for each byte at hand and the call it is in |
| DecoderRuns.FlowGoesOn | fr5080_msbc_decoder/src/msbc_decoder.c:154-298 | in every session with free channels the next grant can come, and comes to a codec that uses what it is given, unless the codec has used nothing of a full buffer or of more than 23 frames |
| DecoderRuns.RestartStreamIff | fr5080_msbc_decoder/src/msbc_decoder.c:604-668 | in every second session the codec uses a prefix of what that session received, if and only if the first left nothing in the linear buffer |
| DecoderRuns.CleanRestartIsFirst | fr5080_msbc_decoder/src/msbc_decoder.c:604-640 | after a session that left nothing unused, a second one goes as a first one: same legal events, same bytes, same credit, same messages |
| DecoderRuns.LeftoverReachable | fr5080_msbc_decoder/src/msbc_decoder.c:604-668 | a legal session that leaves something |
| DecoderMessages.FirstMessageIff | fr5080_msbc_decoder/src/msbc_decoder.c:723-727 | before the handler first runs one message has been inserted if 16 frames have been received, else none |
| DecoderMessages.CallPosts | fr5080_msbc_decoder/src/msbc_decoder.c:581-594 | a call of the handler inserts a message if and only if it leaves the codec uninitialised and no other session is being prepared |
| DecoderMessages.DecodesIffDone | fr5080_msbc_decoder/src/msbc_decoder.c:581-586 | between two calls the decoder decodes if and only if the codec has reported that it is initialised |
| DecoderMessages.DecodesAtOnce | fr5080_msbc_decoder/src/msbc_decoder.c:401-408 | after a successful start the codec is called to decode in the same call of the handler, whatever the start used and whatever arrives in between |
| DecoderMessages.MessagesSuffice | fr5080_msbc_decoder/src/msbc_decoder.c:574-594 | in every session whose calls are each due to one of the decoder's own messages, a decoder that buffers or initialises has one more message waiting |
| Playback.Player.DropFirst | fr5080_msbc_decoder/src/native_playback.c:100-102 | the oldest chunk leaves the list and is freed |
| Playback.Player.Clear | fr5080_msbc_decoder/src/native_playback.c:33-45 | the queue is empty, the counter agrees and every chunk ever queued has been freed, once and in order |
| Playback.Player.DoubleInto | fr5080_msbc_decoder/src/native_playback.c:137-142 | the loop writes every sample twice, in order, and nothing for a last odd byte |
| Playback.Player.RecvFrame | fr5080_msbc_decoder/src/native_playback.c:124-169 | the pending bytes gain every sample twice, and after an odd number of bytes two unset ones; the counter is their number, and a message is posted exactly when it is below the threshold |
| Playback.Player.PostIfLow | fr5080_msbc_decoder/src/native_playback.c:114-120 | a message exactly when the counter is below the threshold |
| Playback.Player.PlayChunk | fr5080_msbc_decoder/src/native_playback.c:65-105 | one pass copies the next pending bytes and removes exactly them; an emptied chunk is freed |
| Playback.Player.Silence | fr5080_msbc_decoder/src/native_playback.c:110-112 | the rest of the frame is zero and nothing before it changes |
| Playback.Player.IpcTx | fr5080_msbc_decoder/src/native_playback.c:49-121 | exactly 512 bytes are written: the next pending ones in order, then zeros |
| Playback.DoubledIndex | fr5080_msbc_decoder/src/native_playback.c:137-142 | where each byte of each sample goes |
| Playback.RunConserves | fr5080_msbc_decoder/src/native_playback.c:49-159 | over any run of even lengths, what was played without padding followed by what is pending is everything received, each sample doubled |
| Playback.PaddingIff | fr5080_msbc_decoder/src/native_playback.c:110-112 | a frame is padded exactly when fewer than 512 bytes were pending, and then none is left |
| Encoder.MsbcEncoder.PopFront | fr5080_msbc_encoder/src/msbc_encoder.c:518-521 | the oldest frame leaves and both counters follow |
| Encoder.MsbcEncoder.StoreFrame | fr5080_msbc_encoder/src/msbc_encoder.c:163-180 | a full queue drops its oldest frame, then takes the new one |
| Encoder.MsbcEncoder.EngineEncode | fr5080_msbc_encoder/src/msbc_encoder.c:108-195 | an encode call records what the codec used and stores what it put out, if anything |
| Encoder.MsbcEncoder.EngineStart | fr5080_msbc_encoder/src/msbc_encoder.c:197-238 | a start call records what the codec used and whether it is initialised |
| Encoder.MsbcEncoder.ShiftBack | fr5080_msbc_encoder/src/msbc_encoder.c:472-479 | the unused end of the full buffer moves to its front |
| Encoder.MsbcEncoder.constructor | fr5080_msbc_encoder/src/msbc_encoder.c:410-426 | an empty, uninitialised, ready encoder |
| Encoder.MsbcEncoder.RunEngine | fr5080_msbc_encoder/src/msbc_encoder.c:465-479 | the call on a full buffer and the shift equal the model's engine step |
| Encoder.MsbcEncoder.Append | fr5080_msbc_encoder/src/msbc_encoder.c:482-486 | the data follow what the buffer holds |
| Encoder.MsbcEncoder.Deliver | fr5080_msbc_encoder/src/msbc_encoder.c:459-487 | one pass of the loop equals the model's |
| Encoder.MsbcEncoder.RecvFrame | fr5080_msbc_encoder/src/msbc_encoder.c:451-490 | the loop, on any input on which it ends, leaves the state of the model's feed; before initialisation it does nothing |
| Encoder.MsbcEncoder.DeliverAll | fr5080_msbc_encoder/src/msbc_encoder.c:459-487 | the loop makes the passes of the model |
| Encoder.MsbcEncoder.Interrupts | fr5080_msbc_encoder/src/msbc_encoder.c:163-180 | frames encoded between two pops are stored in the order of the schedule |
| Encoder.MsbcEncoder.SendOne | fr5080_msbc_encoder/src/msbc_encoder.c:516-530 | one pass of a request takes the oldest frame, whatever is stored after it |
| Encoder.MsbcEncoder.RecvFrameReq | fr5080_msbc_encoder/src/msbc_encoder.c:492-543 | a request, interrupted between its pops, executes its schedule; a packet is sent exactly if it took any; payload, length and header are those of the frames, and a receiver recovers frames of one length from it, in 230 bytes if they have at most 57 |
| Encoder.MsbcEncoder.Destroy | fr5080_msbc_encoder/src/msbc_encoder.c:428-449 | the queue and both counters are empty and the encoder is not ready |
| EncoderModel.FeedIs | fr5080_msbc_encoder/src/msbc_encoder.c:459-487 | the state in which the loop ends does not depend on how many passes it is given |
| EncoderModel.PassesStream | fr5080_msbc_encoder/src/msbc_encoder.c:451-487 | at every pass, of a loop that ends or not, what the codec has used, what is held and what is still to come are the whole input |
| EncoderModel.FeedStream | fr5080_msbc_encoder/src/msbc_encoder.c:451-487 | when the loop has ended, what the codec has used followed by what is held is the whole input |
| EncoderModel.PassExact | fr5080_msbc_encoder/src/msbc_encoder.c:459-487 | one pass, by the bytes at hand: with as many as the buffer holds or more, exactly one call on the first of them, and what stays is an end of them; with fewer, all are held and no call is made |
| EncoderModel.PassesMadeBy | fr5080_msbc_encoder/src/msbc_encoder.c:464-480 | the codec is called with full buffers, to start until it is initialised and to encode from then on; bytes used and frames are what it answered to these calls |
| EncoderModel.FeedSplit | fr5080_msbc_encoder/src/msbc_encoder.c:459-487 | how the input is cut into deliveries changes neither codec calls and their buffers, nor frames, nor what is held, nor whether the loop ends |
| EncoderModel.SettlesHereIff | fr5080_msbc_encoder/src/msbc_encoder.c:459-480 | on this input and from this state the loop ends if and only if every full buffer that comes up makes progress after some number of calls |
| EncoderModel.SettlesIff | fr5080_msbc_encoder/src/msbc_encoder.c:459-480 | the same over all states, inputs and histories of calls |
| EncoderModel.StallReachable | fr5080_msbc_encoder/src/msbc_encoder.c:459-480 | with a codec that refuses everything, any input longer than the buffer keeps a new encoder in the loop for good |
| EncoderModel.BusyEnds | fr5080_msbc_encoder/src/msbc_encoder.c:459-480 | with a codec that uses a byte or completes the initialisation in each call, every byte costs one pass at most and the initialisation one more |
| FrameQueue.RunPartition | fr5080_msbc_encoder/src/msbc_encoder.c:163-180 | over any run, with frames encoded in the middle of a request, at most 400 frames are queued, sent, dropped and queued frames are the encoded ones in order, and the sent ones are those of the packets |
| FrameQueue.PushPartition | fr5080_msbc_encoder/src/msbc_encoder.c:163-180 | storing a frame keeps this |
| FrameQueue.TakePartition | fr5080_msbc_encoder/src/msbc_encoder.c:516-530 | so does a pop |
| FrameQueue.ReplyPartition | fr5080_msbc_encoder/src/msbc_encoder.c:532-538 | so does the end of a request |
| FrameQueue.DropsIff | fr5080_msbc_encoder/src/msbc_encoder.c:163-170 | a run drops nothing if and only if no frame comes while the queue holds 400 |
| FrameQueue.PacketIsOldestIff | fr5080_msbc_encoder/src/msbc_encoder.c:508-538 | a packet is the oldest four of the frames queued and encoded meanwhile, or all of them, if and only if no frame met a full queue while it was served |
| FrameQueue.SkippedFrame | fr5080_msbc_encoder/src/msbc_encoder.c:508-538 | from a full queue, a packet that skips a frame |
| FrameQueue.UnpackIff | fr5080_msbc_encoder/src/msbc_encoder.c:523-526 | splitting the payload by the header recovers the frames if and only if all have that length |
| FrameQueue.UnequalFrames | fr5080_msbc_encoder/src/msbc_encoder.c:516-526 | two frames of one and two bytes, sent together, come out as two other ones |
| FrameQueue.PacketFits | fr5080_msbc_encoder/src/msbc_encoder.c:510-526 | with frames of one length up to 57 the packet has 2 + kL bytes, at most 230 |
| CoList.List.PushBack | fr5080_basic/src/lib/co_list.c:40-58 | the element is appended, its link and that of the last one are the only words written |
| CoList.List.PopFront | fr5080_basic/src/lib/co_list.c:60-78 | the first element is taken, NULL exactly from an empty list, first and last stay right |
| CoList.List.Size | fr5080_basic/src/lib/co_list.c:80-93 | the number of elements, cut to 16 bits |
| CoList.KeptLinked | fr5080_basic/src/lib/co_list.c:40-78 | whatever the heap does with other blocks leaves the links alone |
| TaskModel.GetHandler | fr5080_basic/src/lib/tasks.c:45-58 | the first entry for the id or the default id, NULL if there is none |
| TaskModel.AllocExact | fr5080_basic/src/lib/tasks.c:34-43 | the heap serves the 12 bytes of the message and its parameters, and the new message has the id and the length it was asked for |
| TaskModel.AllocKeepsInv | fr5080_basic/src/lib/tasks.c:34-43 | a new message owns a block that nobody else owns and that has room for its parameters, and is its sender's until it is inserted |
| TaskModel.InsertKeepsInv | fr5080_basic/src/lib/tasks.c:16-21 | insertion hands it to the queue |
| TaskModel.FinishKeepsInv | fr5080_basic/src/lib/tasks.c:64-72 | the message that is freed is live, so none is freed twice |
| TaskModel.RunKeepsInv | fr5080_basic/src/lib/tasks.c:16-77 | over any run messages are handled in insertion order, and every live block has exactly one holder: a sender, the queue, the scheduler or another user; a message's block has room for its parameters |
| TaskModel.QuietIsInitial | fr5080_basic/src/lib/tasks.c:59-77 | when all is inserted, handled and freed the heap is one block again |
| Tasks.Scheduler.constructor | fr5080_basic/src/lib/tasks.c:11-14 | an empty queue on an unused heap satisfies the invariant |
| Tasks.Scheduler.SetFields | fr5080_basic/src/lib/tasks.c:39-40 | the fields of a new message are written into its block, and no list link and no other message changes |
| Tasks.Scheduler.Alloc | fr5080_basic/src/lib/tasks.c:34-43 | the message is allocated and filled in, in the real heap, as in the model, in a block with room for its parameters |
| Tasks.Scheduler.Insert | fr5080_basic/src/lib/tasks.c:16-21 | the message is linked into the list in memory as in the model |
| Tasks.Scheduler.Begin | fr5080_basic/src/lib/tasks.c:23-68 | the oldest message is taken, read from memory, and its handler found |
| Tasks.Scheduler.End | fr5080_basic/src/lib/tasks.c:71-71 | the message's block goes back to the heap; the queued and held messages stay as they are in memory |
| NumberText.Strn2Val | fr5080_basic/src/lib/co_util.c:31-63 | the loop computes the parse of the first n characters |
| NumberText.DigitValue | fr5080_basic/src/lib/co_util.c:14-22 | the parser's value of each printed digit, in either case, is the digit |
| NumberText.DigitsLength | fr5080_basic/src/lib/co_printf.c:99-108 | the number of digits is the least power of the base that exceeds the number |
| NumberText.IntTextWidth | fr5080_basic/src/lib/co_printf.c:78-122 | a padded number is as wide as asked for or as its own text |
| NumberText.BufferSuffices | fr5080_basic/src/lib/co_printf.c:75-117 | the 12-byte buffer is never exceeded and is filled exactly by ten-digit negative numbers whose sign is stored |
| NumberText.ParseDigits | fr5080_basic/src/lib/co_util.c:48-61 | reading the digits of a number gives it back modulo 2^32, whatever follows |
| NumberText.ReadBack | fr5080_basic/src/lib/co_util.c:31-63 | what is read back from any printed number |
| NumberText.ExpectedIs | fr5080_basic/src/lib/co_printf.c:91-94 | the number itself, or its magnitude when signed decimal; the minimum int stays itself |
| NumberText.RoundTripIff | fr5080_basic/src/lib/co_printf.c:78-122 | printing and reading back returns that value for every number, width and padding, except exactly when zeros were appended to a nonzero number |
| NumberLaws.DigitsNumeral | fr5080_basic/src/lib/co_printf.c:99-108 | the digits printed for a nonzero number are its numeral, without leading zeros |
| NumberLaws.PlainIs | fr5080_basic/src/lib/co_printf.c:83-117 | 0 prints as 0; a minus sign stands before a negative signed decimal number and no other; the rest is the numeral |
| NumberLaws.FieldIs | fr5080_basic/src/lib/co_printf.c:31-72 | the four ways of padding: spaces or zeros, on the left or on the right |
| NumberLaws.IntTextIs | fr5080_basic/src/lib/co_printf.c:110-121 | zeros on the left come after the sign |
| NumberLaws.CharValIs | fr5080_basic/src/lib/co_util.c:14-29 | a character is a digit of the base exactly if it is one, in either case, and is worth its place |
| NumberLaws.ParseNumber | fr5080_basic/src/lib/co_util.c:48-61 | a row of digits is read as its number modulo 2^32 |
| NumberLaws.ParseSkipsOther | fr5080_basic/src/lib/co_util.c:44-57 | before the number whatever is no digit is skipped |
| NumberLaws.ParseStops | fr5080_basic/src/lib/co_util.c:44-57 | after it whatever is no digit ends it |
| NumberLaws.TenTwenty | fr5080_basic/src/lib/co_util.c:44-57 | 10:20 is read as 10 |
| PrintLaws.PrintsDecimal | fr5080_basic/src/lib/co_printf.c:160-163 | "%d" prints a minus sign for a negative number and no other, and the decimal numeral |
| PrintLaws.PrintsHexadecimal | fr5080_basic/src/lib/co_printf.c:165-172 | "%x" and "%X" print the hexadecimal numeral in lower and upper case |
| PrintLaws.PrintsString | fr5080_basic/src/lib/co_printf.c:154-158 | "%s" prints the string, or (null) |
| PrintLaws.PrintsChar | fr5080_basic/src/lib/co_printf.c:173-179 | "%c" prints one character, NUL none |
| PrintLaws.PrintsPercent | fr5080_basic/src/lib/co_printf.c:140-142 | "%%" prints a percent sign |
| PrintLaws.PrintsLoneSign | fr5080_basic/src/lib/co_printf.c:136-138 | a percent sign at the end prints nothing |
| PrintLaws.PrintsNothing | fr5080_basic/src/lib/co_printf.c:154-181 | any other letter prints nothing and takes no argument |
| PrintLaws.PrintsPadded | fr5080_basic/src/lib/co_printf.c:143-152 | a width fills up what the letter prints on the left, with spaces, or with zeros after the sign |
| PrintLaws.DecimalReadsBack | fr5080_basic/src/lib/co_printf.c:160-163 | "%d" with any flag and width is read back as the number or its magnitude |
| PrintLaws.HexadecimalReadsBack | fr5080_basic/src/lib/co_printf.c:165-172 | "%x" and "%X" are read back as the number |
| Printf.Sink.PrintPad | fr5080_basic/src/lib/co_printf.c:55-70 | one loop writes the padding |
| Printf.PlanField | fr5080_basic/src/lib/co_printf.c:31-53 | how many padding characters, and which |
| Printf.Sink.PrintAll | fr5080_basic/src/lib/co_printf.c:62-65 | the string is written as it is |
| Printf.Sink.Prints | fr5080_basic/src/lib/co_printf.c:31-73 | the field is written, padded on the right side, and its length returned |
| Printf.PutDigits | fr5080_basic/src/lib/co_printf.c:96-108 | the digits end up at the end of the buffer in front of the terminator, within its bounds |
| Printf.Sink.Printi | fr5080_basic/src/lib/co_printf.c:78-122 | the text of the number is written and its length returned |
| Printf.ScanConversion | fr5080_basic/src/lib/co_printf.c:132-152 | flags and width are read without overflow |
| Printf.Sink.PrintArg | fr5080_basic/src/lib/co_printf.c:154-180 | each letter prints its argument |
| Printf.Sink.Print | fr5080_basic/src/lib/co_printf.c:124-196 | the whole text is written, the result is the number of characters, and a buffer is terminated |
| Printf.ConvertWidth | fr5080_basic/src/lib/co_printf.c:154-180 | every converted field has the larger of the width and its natural length |
| Printf.PlainText | fr5080_basic/src/lib/co_printf.c:183-187 | text without a percent sign is printed as it is |
| Printf.FormatAppend | fr5080_basic/src/lib/co_printf.c:130-188 | formats one after the other print one after the other: a conversion ends where it ends |

## Left out

- Codec internals and the `xa_*` call sequences: a closed library; its answers are inputs of the steps.
- IPC, DMA, UART, flash and timer registers and channel allocation: drivers; a missing channel is an input.
- Resampling between decoder and playback: `resample_used` is never set.
- Allocation failures inside the callers (`task_msg_alloc`, the playback and encoder queues): the source dereferences the result unchecked.
- Decoder.MsbcDecoder.DoDecoderHandler: a second session whose codec asks for a buffer that ends before the data left by the first, for which the source copies from beyond the buffer.
- Decoder.MsbcDecoder.EngineInit: as for `DoDecoderHandler`.
- Decoder.MsbcDecoder.RequestMore: the message that grants is sent at line 285, before lines 286-289 update the counters; an answer in between is not modelled. Otherwise nothing can arrive during the request, as all granted data are in.
- Decoder.MsbcDecoder.Reset: the ring's memory is the same in every session, where the source frees and allocates it; its content does not matter, as the ring starts empty.
- The state `MSBC_DECODER_PCM_TRANSMITTING`: never entered.
- Playback.RunConserves: deliveries of an odd number of bytes, for which two unset bytes are queued (`Playback.Player.RecvFrame`).
- Playback and encoder queues are sequences here; the list they use in the source is `CoList`.
- Playback.Player.PostIfLow: a frame played between the insertion of a chunk and the test of the threshold; it can only add a message.
- Playback.Player.Clear: frees are recorded in the order of the chunks (`freed`); the heap's own state, and that data and node of a chunk are two blocks, are not part of the class.
- Playback.Player.PlayChunk: as for `Clear`.
- Playback.Player.IpcTx: as for `Clear`.
- Encoder.MsbcEncoder.StoreFrame: each frame that leaves the queue is freed, which `gone` records; the heap's own state is not part of the class. Storing is one step: a request does not interrupt it.
- Encoder.MsbcEncoder.RecvFrameReq: as for `StoreFrame`.
- Encoder.MsbcEncoder.Destroy: as for `StoreFrame`; the codec's memory is not modelled.
- Encoder.MsbcEncoder.RecvFrame: inputs on which the loop does not end; `SettlesHereIff` says which they are.
- Tasks.Scheduler.Alloc: an allocation that fails, after which the source writes through NULL, and a parameter size whose sum with the 12 bytes of the message wraps.
- HeapModel.FreeKeepsInv: pointers that were never returned by an allocation, and stale ones whose header has become memory inside another block; freeing those is undefined. A stale pointer whose header is a block's header again releases that block (`ReusedBlockIsReleased`).
- Printf.Sink.Print: formats that end inside a conversion, for which the source reads past the end, and widths that do not fit an `int`.
- `vPortInitialiseBlocks`, the size getters and the delay loops: nothing to prove.
- The other firmware images with variants of this code, boot code, tables and scripts.
