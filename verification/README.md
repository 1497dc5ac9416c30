# A verified model of the DSP offload service and of the gears matrix kernel

The repository runs a small service: programs on an ARM Linux host ask a daemon, over a local socket,
for products and for CRC-32 checksums of images; the daemon forwards each request over a message queue
to a DSP, which reads the image with a DMA engine in ping-pong fashion, and routes the answers back.
Beside it stands an OpenGL demo with a 4x4 matrix kernel. This project states what that code promises
and proves it with Dafny 4.11 (`dafny verify dfyconfig.toml`).

## What is modelled

**DMA streaming** (`Edma`, `PingPong`). DSP memory is one array of 2^32 bytes. The engine is a state
machine that copies one byte per step; `Interleave` runs any number of its steps, and is called between
all memory accesses the CPU makes while a transfer is pending, so the CPU and the engine interleave
freely. A started transfer latches the live PaRAM set, which is then reloaded from its link, as EDMA3
does. The counts register is the sum of its two 16-bit fields, which are disjoint. The six statements
that recur at each place where the source starts one block, processes another and waits are one method,
`Advance`; the loop, the uneven tail and all four ways out of it are the source's.
`ProcessDmaIn` is called under what the code needs: the row length fits a half-buffer, the height is
positive, the stride fits the signed 16-bit index or every block is one row, and the image lies outside
the scratch memory. When channels cannot be had or linked nothing is streamed.

**CRC-32** (`Crc`, `Pixels`, `CrcKernels`, `CrcService`, `ServiceLaws`, `CpuCrc`, `ImageTheorems`, over the generic folds
of `Folds` and the memory of `Memory`). The reference is the bit-serial definition, as in section 8 of
RFC 1952. Tables are generated and looked up as in the source; words are read little-endian. The guard
of the service computes the row length modulo 2^32, so some widths pass it although the row does not
fit; `GuardExact` says which. `ServiceAnswer` is the answer as a function of memory and request: the field
as it came when the guard refuses, the CRC-32 of the image when it is streamed, 0, with no error, when
streaming is refused. `Streamable` is what streaming needs of a request the guard lets through. `ServiceLaws`
says the same once more from the outside: by format number, by the fields of the request, and by the bytes of
memory pixel by pixel, without kernels or drivers; the theorems about answers use these statements.

**Daemon** (`Wire`, `Framing`, `Streams`, `Inbound`, `Outbound`, `PeerBuffers`, `Daemon`, `PeerLaws`, `Dspmain`).
`Framing` treats any byte stream cut into messages by an 8-byte header; `Wire` has the formats. `Inbound`,
`Outbound` and `PeerBuffers` are the buffers of one client on the heap, `Dspmain` the intrusive list of
clients, edited while it is walked. All refine the functions of `Daemon`, which take the daemon as a value;
`PeerLaws` says what a visit does to a client from the bytes on its socket alone.
What select, recv, send and MSGQ_put do is a parameter (`Event`): bytes that have arrived, room in the
socket, success of the put. A receive of nothing and a send of nothing stand for the error returns.

**Protocol** (`DspTask`, `Pipeline`, `Protocol`, `Guarantees`). Daemon, both message queues and the DSP task as
a transition system whose steps interleave freely: handshake, including the request parked during the
asynchronous locate, connecting, serving one client, DSP work, failed puts on either side, shutdown. What
clients send is any bytes, cut in any way. A step of DSP work carries the situation it finds, the contents of
memory and whether channels can be had; the number in the answer is then `ComputedCrc` of that situation
and the request, which is `ServiceAnswer` for every `Streamable` request and unknown for the others.
`DspTask.Work` is the code that computes it, with the engine behind it. The invariants hold in every
reachable state, and `TurnIsSteps` ties them to the turns of the daemon's main loop.

**Client library** (`Client`, `EndToEnd`). The 1024-byte request buffer, flushing, and the draining of
replies by one call after another; and the chain from a library's calls through daemon and DSP to the
values it gets.

**Tile pipeline** (`TilePipeline`). The schedule of callbacks in `process_dma_pro`, with the constant 10
generalised to any positive number of tiles. Which half a transfer fills or empties is stated there only
in comments; the model takes the comments and compares them with the link chain.

**Gears** (`Gears`). The matrix kernel over the reals, on sixteen-element arrays, in place.

## Where code and expectations differ

* `dspmain_crc32_result` skips an older reply by calling the product variant
  (`dsplink/dspmain/gpp/libdspmain.c:246`), so of two checksums asked for in a row the second cannot be had
  first: `Client.Crc32AloneExact` gives the exact condition, `Client.SecondChecksumMissed` the example.
* The counter that lets the daemon block without a timeout also counts answers the DSP failed to put, so
  one lost answer can hang it: `Guarantees.WaitForeverExact` gives the exact condition,
  `Guarantees.HandshakeCanHang` a run.
* The guard in front of streaming admits row lengths that wrap: `CrcService.GuardExact`,
  `CrcService.GuardAdmitsWrappedWidth`. Among them is a row length of 0, by which `process_dma_in` divides:
  `CrcService.GuardAdmitsZeroRowLength`.
* Rows whose stride does not fit the signed 16-bit index are misread as soon as a block has two of them:
  `CrcService.StrideExact`, `CrcService.WideStrideMisread`.
* In `process_dma_pro` the comments and the link chain of the outgoing channel agree only for an even number
  of tiles, and so do those of the incoming channel if the loads the comments chain to outgoing starts run
  on it: `TilePipeline.ProcessDmaPro`. The constant 10 is even.
* `invert` inverts exactly the matrices with an orthonormal linear part whose last row is 0 0 0 1, or 0 0 0 -1
  with no translation: `Gears.RightInverseExact`, `Gears.LeftInverseExact`. A rotation about an axis that is not
  a unit vector breaks this: `Gears.NonUnitAxisNotInverted`.
* A failed flush drops the buffered requests: `Client.Library.Flush`.

## Model

| member | source | states |
|---|---|---|
| PingPong.ProcessDmaIn | dsplink/dspmain/dsp/dspmain_edma.c:177-306 | however the engine's byte copies interleave with the CPU, the callback gets the rows of the strided image, each once and in order; the register covers exactly their visible bytes; nothing outside the scratch memory changes; no transfer or semaphore count is left over |
| ServiceLaws.StridedIsRows | dsplink/dspmain/dsp/dspmain_edma.c:218-301 | the bytes handed over are row 0, row 1 and so on, row r taken stride * r behind the first |
| PingPong.StreamBlocks | dsplink/dspmain/dsp/dspmain_edma.c:225-301 | from any state with a full ping half, the two-block loop and the tail hand over all remaining rows and end with none |
| PingPong.StreamTail | dsplink/dspmain/dsp/dspmain_edma.c:252-301 | with fewer than two blocks left, each of the exits (halved tail, one block, none) finishes the image |
| PingPong.Advance | dsplink/dspmain/dsp/dspmain_edma.c:229-239 | starting a block into one half while the other is processed extends the bytes handed over by exactly the processed block; the CPU reads only the half that is not in flight |
| PingPong.RowsFit | dsplink/dspmain/dsp/dspmain_edma.c:200-202 | the chosen number of rows is positive, at most the height, fits the half-buffer, and is the height or the most that fits |
| PingPong.StrideKept | dsplink/dspmain/dsp/dspmain_edma.c:122-123 | a block delivers the right rows when the stride fits 16 bits or the block is one row |
| Edma.LandsAlternately | dsplink/dspmain/dsp/dspmain_edma.c:120-165 | over a run of any length the k-th transfer of the linked chain lands in ping for even k and in pong for odd k |
| Edma.PackRoundTrip | dsplink/dspmain/dsp/dspmain_edma.c:211 | two counts that fit 16 bits are recovered from the packed register |
| Edma.Dsp.SetParamLink | dsplink/dspmain/dsp/dspmain_edma.c:110-174 | the three sets form the chain channel to pong, pong to ping, ping to pong, with the given strides |
| Edma.Dsp.Start | dsplink/dspmain/dsp/dspmain_edma.c:212-213 | a start is allowed only with source and counts rewritten since the last reload and nothing outstanding; it takes up the live set and reloads it from its link |
| Edma.Dsp.Wait | dsplink/dspmain/dsp/dspmain_edma.c:216-217 | after the wait the destination holds the transferred bytes, and all else is as it was |
| Edma.Dsp.Interleave | dsplink/dspmain/dsp/dspmain_edma.c:212-217 | any number of engine steps keeps the CPU's memory intact outside the half in flight |
| Edma.Dsp.Callback1 | dsplink/dspmain/dsp/dspmain_edma.c:25-51 | completion posts the semaphore and records success or failure; any other status does neither |
| Crc.TableUpdateIsBitSerial | dsplink/dspmain/dsp/dspmain_crc32.c:57-61 | one table step equals eight bit-serial polynomial steps, for every state and byte |
| Crc.KnownValues | dsplink/dspmain/dsp/dspmain_crc32.c:170-181 | the CRC-32 of the letter a is E8B7BE43, that of nothing 0 |
| Crc.TableUpdateOfLowByte | dsplink/dspmain/dsp/dspmain_crc32.c:81-83 | a step with a wider word sees only its low byte |
| Crc.RegisterComposes | dsplink/dspmain/dsp/dspmain_crc32.c:43-63 | updating over one message and then another is updating over both |
| Crc.RegisterLinear | dsplink/dspmain/dsp/dspmain_crc32.c:57-61 | the register is linear: xor of states and messages gives xor of registers |
| Crc.FeedByteInjectiveInState | dsplink/dspmain/dsp/dspmain_crc32.c:57-61 | different states stay different under the same byte |
| Crc.WindowDeterminesRegister | dsplink/dspmain/dsp/dspmain_crc32.c:57-61 | equal registers around a window of at most four bytes force equal windows |
| Crc.BurstDetected | dsplink/dspmain/dsp/dspmain_crc32.c:57-61 | messages that differ only within four consecutive bytes have different checksums |
| Pixels.KernelComposes | dsplink/dspmain/dsp/dspmain_crc32.c:43-135 | each kernel composes over whole pixels |
| Pixels.Pixel16 | dsplink/dspmain/dsp/dspmain_crc32.c:79-84 | two steps with a 16-bit pixel are two bytes, low byte first |
| Pixels.Pixel24 | dsplink/dspmain/dsp/dspmain_crc32.c:102-108 | three steps with a 32-bit pixel are its three low bytes |
| Pixels.Pixel32 | dsplink/dspmain/dsp/dspmain_crc32.c:126-133 | four steps with a 32-bit pixel are its four bytes, low byte first |
| CrcKernels.GenTable | dsplink/dspmain/dsp/dspmain_crc32.c:13-41 | all 256 entries are the eight-step images of their index, stored in DSP memory, whatever a pending transfer does meanwhile |
| CrcKernels.CrcUpdate8 | dsplink/dspmain/dsp/dspmain_crc32.c:44-63 | the register after the loop is the bit-serial register over the bytes |
| CrcKernels.CrcUpdate16 | dsplink/dspmain/dsp/dspmain_crc32.c:66-86 | the same for 16-bit pixels |
| CrcKernels.CrcUpdate24 | dsplink/dspmain/dsp/dspmain_crc32.c:89-110 | the register over the bytes with every fourth one dropped |
| CrcKernels.CrcUpdate32 | dsplink/dspmain/dsp/dspmain_crc32.c:113-135 | the same as for bytes, for 32-bit pixels |
| Pixels.DropFourthAt | dsplink/dspmain/dsp/dspmain_crc32.c:102-108 | index by index, byte j of pixel i is byte j of the i-th three bytes fed |
| CrcService.ProcessCrc32 | dsplink/dspmain/dsp/dspmain_crc32.c:138-182 | the answer is the CRC-32 of the visible bytes; the field is left alone when the guard refuses; it is 0 when streaming is refused |
| ServiceLaws.AnswerByFormat | dsplink/dspmain/dsp/dspmain_crc32.c:148-182 | by number: formats 4, 2 and any other are checked with all 4, 2 and 1 bytes of each pixel, format 3 with the first 3 of 4; refused requests keep their field |
| ServiceLaws.StreamableExact | dsplink/dspmain/dsp/dspmain_crc32.c:175-179 | which requests are refused and which the code is made for, in numbers: zero sizes, 15872 bytes a row, 16-bit strides, the scratch addresses |
| ServiceLaws.RightIsAnswer | dsplink/dspmain/dsp/dspmain.c:38-65 | what the DSP computes for a request is an answer to it, from the request's own fields as the client named them |
| ServiceLaws.OnlyUsedBytesMatter | dsplink/dspmain/dsp/dspmain_crc32.c:138-182 | the answer to a request of any format depends on the bytes used only: not on stride padding, and in format 3 not on the top byte of a pixel |
| ServiceLaws.OneByteTellsApart | dsplink/dspmain/dsp/dspmain_crc32.c:138-182 | for every format, memories that differ in exactly one byte used get different answers |
| CrcService.GuardExact | dsplink/dspmain/dsp/dspmain_crc32.c:175-179 | the guard admits every shape that fits, and of the others exactly those with a row length that wraps or a height that is negative as an int |
| CrcService.GuardAdmitsWrappedWidth | dsplink/dspmain/dsp/dspmain_crc32.c:175-179 | a width that passes although the row does not fit |
| CrcService.GuardAdmitsZeroRowLength | dsplink/dspmain/dsp/dspmain_edma.c:200-201 | the widths, by format, for which the guard passes and the row length divided by is 0 |
| CrcService.StrideExact | dsplink/dspmain/dsp/dspmain_edma.c:122 | the engine delivers the image's rows from every memory exactly when the stride fits 16 bits or a block has one row |
| CrcService.WideStrideMisread | dsplink/dspmain/dsp/dspmain_edma.c:122 | bytes, width 1, height 2, stride 40000: a memory in which the block delivered has another checksum than the image |
| CrcService.ScratchLayout | dsplink/dspmain/dsp/dspmain_crc32.c:8-10 | table, ping and pong do not overlap and fill 32 KiB |
| CpuCrc.CpuCrc | dsplink/dspmain/gpp/dsptestsck.c:213-243 | the row-by-row loops compute, for formats 1 to 4, the CRC-32 of the pixel bytes of that format |
| CpuCrc.GenTable | dsplink/dspmain/gpp/dsptestsck.c:102-126 | the host's table holds the eight-step images |
| CpuCrc.Compare | dsplink/dspmain/gpp/dsptestsck.c:199-253 | for every format and shape of the test program the number the DSP puts in the message is, read as unsigned, the host's |
| ImageTheorems.OnlySeenBytesMatter | dsplink/dspmain/dsp/dspmain_crc32.c:138-182 | kernel by kernel, bytes it does not feed never affect the checksum |
| ImageTheorems.SingleByteChangeDetected | dsplink/dspmain/dsp/dspmain_crc32.c:138-182 | images of one shape that differ in exactly one visible byte have different checksums |
| ImageTheorems.WindowChangeDetected | dsplink/dspmain/dsp/dspmain_crc32.c:138-182 | so do images whose visible bytes differ only within four consecutive ones |
| TilePipeline.ProcessDmaPro | dsplink/dspmain/dsp/dspmain_edma.c:343-518 | each half takes its tiles through the three stages in order, n tiles in all; no callback runs on the half a pending transfer names; the starts of the in channel agree with its link chain exactly when n is at least two, those of the out channel, and all loads with the chained ones, exactly when n is even |
| TilePipeline.TilesAt | dsplink/dspmain/dsp/dspmain_edma.c:384-424 | stage i of a half is stage i mod 3 of tile i div 3 |
| Wire.ReadWritten | dsplink/dspmain/gpp/parse.h:205-221 | a 32-bit field read back is the one written |
| Wire.WrittenRead | dsplink/dspmain/gpp/parse.h:108-126 | four bytes read as a field and written back are the same bytes |
| Wire.FieldOnWire | dsplink/dspmain/gpp/parse.h:108-126 | a field is, modulo 2^32, the number its four bytes spell, low byte first |
| Wire.IntOnWire | dsplink/dspmain/gpp/parse.h:205-221 | the bytes written spell the int, modulo 2^32 |
| Wire.MultOnWire | dsplink/dspmain/gpp/libdspmain.c:108-112 | the five fields of a product request, with code 1 and size 20 |
| Wire.Crc32OnWire | dsplink/dspmain/gpp/libdspmain.c:188-195 | the eight fields of a checksum request, with code 2 and size 32 |
| Wire.ReplyOnWire | dsplink/dspmain/gpp/dspmain_peer.c:121-127 | the four fields of a reply, with size 16 |
| Wire.ParseExact | dsplink/dspmain/gpp/dspmain_peer.c:302-381 | a stream is whole messages of 8 to 512 bytes with all fields of their kind, whose requests are asked, and then an open message or one refused for its length or lack of fields |
| Wire.DecodeOfEncode | dsplink/dspmain/gpp/dspmain_peer.c:164-252 | the daemon recovers exactly the fields of an encoded request |
| Wire.EncodeOfDecode | dsplink/dspmain/gpp/dspmain_peer.c:164-252 | a message of the exact size that decodes to a request is that request's encoding |
| Wire.DecodeOfEncodeReply | dsplink/dspmain/gpp/dspmain_peer.c:121-127 | a reply is recovered from its 16 bytes |
| Wire.ParseOfEncodeAll | dsplink/dspmain/gpp/dspmain_peer.c:302-381 | the stream of requests a client made parses into those requests |
| Wire.ClientRequestsArrive | dsplink/dspmain/gpp/dspmain_peer.c:302-381 | however the stream is cut by recv |
| Framing.FragmentationIndependent | dsplink/dspmain/gpp/dspmain_peer.c:302-381 | for every way of cutting a stream into receives, requests, the open message and the byte of rejection are those of one parse of the whole |
| Framing.ParseAppend | dsplink/dspmain/gpp/dspmain_peer.c:302-381 | parsing can stop anywhere and resume with what is left |
| Framing.RejectedAtOnce | dsplink/dspmain/gpp/dspmain_peer.c:351-360 | a rejection comes with the very byte that makes it inevitable |
| Framing.DeliverKeepsPartial | dsplink/dspmain/gpp/dspmain_peer.c:342-363 | a receive leaves an open message or a whole one that says its own length |
| Streams.Stream.InUint32 | dsplink/dspmain/gpp/parse.h:108-126 | reads the field at p and moves past it |
| Streams.Stream.OutUint32 | dsplink/dspmain/gpp/parse.h:205-221 | appends the field at p and leaves what follows |
| Inbound.WantedBytes | dsplink/dspmain/gpp/dspmain_peer.c:323-328 | the read asked for is at least one byte and stays within the 512-byte buffer |
| Inbound.Receive | dsplink/dspmain/gpp/dspmain_peer.c:342-379 | the buffer, the request handed on and the rejection are those of the framing function |
| Inbound.ReadRequest | dsplink/dspmain/gpp/dspmain_peer.c:225-252 | the fields of a complete message, or that it is too short, or that its code is unknown |
| Outbound.OutQueue.Enqueue | dsplink/dspmain/gpp/dspmain_peer.c:453-467 | the queue grows by the reply; head is null exactly when tail is; tail is the last node reached from head |
| Outbound.OutQueue.SendSome | dsplink/dspmain/gpp/dspmain_peer.c:383-417 | as many bytes of the first reply go out as there is room for, and a reply that fits is gone; with what is still queued they are the bytes that were queued; the list stays sound |
| Outbound.ReplyStream | dsplink/dspmain/gpp/dspmain_peer.c:121-127 | the 16-byte buffer holds the encoded reply |
| PeerBuffers.PeerBuffers.ReadSocket | dsplink/dspmain/gpp/dspmain_peer.c:302-381 | with both buffers on the heap, reading changes only the open message, as the framing function says |
| PeerBuffers.PeerBuffers.WriteSocket | dsplink/dspmain/gpp/dspmain_peer.c:383-417 | writing changes only the queue, takes what there is room for, and conserves bytes |
| PeerLaws.KeepExact | dsplink/dspmain/gpp/dspmain_peer.c:302-417 | a visit removes a client exactly when nothing came, its bytes spell a refused message, its request could not be sent on, or the socket takes nothing of what is queued; otherwise it keeps the open message and the rest of the queue |
| PeerLaws.PassExact | dsplink/dspmain/gpp/dspmain_peer.c:282-422 | a traversal removes exactly the clients whose own visit fails, and leaves the others served, in order |
| Daemon.CheckFdsVisitsEachOnce | dsplink/dspmain/gpp/dspmain_peer.c:297-421 | walking the list while removing peers visits every original peer exactly once, in order: survivors and requests sent are those of separate visits |
| Daemon.SentThenRemaining | dsplink/dspmain/gpp/dspmain_peer.c:383-417 | a partial send neither loses nor reorders bytes |
| Daemon.ServeKeepsValid | dsplink/dspmain/gpp/dspmain_peer.c:297-421 | ids stay unique and in list order, whichever peers are removed |
| Daemon.AcceptKeepsValid | dsplink/dspmain/gpp/dspmain_peer.c:425-450 | a new peer gets a fresh id at the end of the list |
| Daemon.ProcessKeepsValid | dsplink/dspmain/gpp/dspmain.c:306-352 | delivering a message keeps the peers in order |
| Daemon.FindIsUnique | dsplink/dspmain/gpp/dspmain.c:315-323 | the search by id finds the peer with that id |
| Dspmain.Dspmain.CheckFds | dsplink/dspmain/gpp/dspmain_peer.c:282-422 | the heap traversal keeps the list acyclic with head and tail right, last_peer always the predecessor, removes exactly the peers whose visit fails, and does to peers and counters what the daemon function does |
| Dspmain.Dspmain.RemoveOne | dsplink/dspmain/gpp/dspmain_peer.c:51-99 | in each of its four cases the list loses exactly that peer and the next one is returned |
| Dspmain.Dspmain.AddFd | dsplink/dspmain/gpp/dspmain_peer.c:424-450 | the list grows at the end by a peer with the next id, the given socket and empty buffers |
| Dspmain.Dspmain.Send | dsplink/dspmain/gpp/dspmain.c:150-303 | a message takes the next number; it is queued and counted, or freed when the put fails |
| Dspmain.Dspmain.ProcessOneMsgq | dsplink/dspmain/gpp/dspmain.c:354-385 | one message off the queue: counter down by one, and the handshake answer taken or the reply queued to the peer with that id, if any |
| Dspmain.Dspmain.LoopTurn | dsplink/dspmain/gpp/dspmain.c:471-490 | a turn serves the sockets if and only if one is ready, waits for a message if and only if none is and the counter is positive, and sleeps otherwise; and what it does to peers, list and counters |
| DspTask.Work | dsplink/dspmain/dsp/dspmain.c:58-65 | with memory and engine as found, the message comes back with the low 32 bits of its product, or with the checksum field the answer function gives |
| DspTask.TruncatedExact | dsplink/dspmain/dsp/dspmain.c:44 | the product kept is the only int congruent to it modulo 2^32, and the product itself when it is an int |
| Pipeline.MoveCounts | dsplink/dspmain/gpp/dspmain.c:174-182 | what adding, changing or removing one message does to the replies owed and to the numbers in use |
| Pipeline.MoveKeepsOrder | dsplink/dspmain/gpp/dspmain.c:238 | messages stay in the order of their numbers |
| Protocol.StepKeepsAccounts | dsplink/dspmain/gpp/dspmain.c:174-178 | every step keeps: counter equals replies owed plus answers lost; every number is in exactly one place |
| Protocol.StepKeepsPhases | dsplink/dspmain/gpp/dspmain.c:502-522 | every step keeps: nothing but the handshake is in use before the reply queue is known |
| Protocol.StepKeepsFaithful | dsplink/dspmain/dsp/dspmain.c:48-108 | every step keeps: a message is the one logged under its number, and an answer is the right one |
| Protocol.StepKeepsStreams | dsplink/dspmain/gpp/dspmain_peer.c:453-467 | every step keeps: bytes sent and queued to a peer are its encoded replies |
| Protocol.StepKeepsHears | dsplink/dspmain/gpp/dspmain_peer.c:302-381 | every step keeps: a peer's requests are those its bytes spell |
| Protocol.StepKeepsComputes | dsplink/dspmain/dsp/dspmain_crc32.c:138-182 | every step keeps: messages reach the DSP as they were sent, and what was computed under a number is right for the request logged under it |
| Protocol.StepKeepsComplete | dsplink/dspmain/gpp/dspmain.c:306-352 | every step keeps: a connected peer's request is replied to, in use, or lost by the DSP |
| Protocol.Reachable | dsplink/dspmain/gpp/dspmain.c:461-543 | all of these hold in every state of every run |
| Guarantees.OneOwner | dsplink/dspmain/dsp/dspmain.c:48-108 | every message ever allocated is held by exactly one queue or party, or has been freed exactly once |
| Guarantees.RequestsCarryReplyQueue | dsplink/dspmain/gpp/dspmain.c:510-522 | no product or checksum request is sent before the reply queue is known |
| Guarantees.CounterMeaning | dsplink/dspmain/gpp/dspmain.c:362-374 | the counter is the number of messages in both queues, held and parked, plus the answers lost |
| Guarantees.WaitForeverExact | dsplink/dspmain/gpp/dspmain.c:471-490 | the daemon blocks for a message the DSP alone can still bring exactly when the counter exceeds the answers lost; otherwise nothing will ever come |
| Guarantees.SleepExact | dsplink/dspmain/gpp/dspmain.c:485-489 | with nothing ready the daemon sleeps in select exactly when no message is in any queue, held or parked, and none was lost |
| Guarantees.BlockingTurn | dsplink/dspmain/gpp/dspmain.c:471-490 | in every reachable state a turn blocks for a message only with no socket ready, and then the DSP can still bring one or nothing ever comes |
| Guarantees.TurnIsSteps | dsplink/dspmain/gpp/dspmain.c:471-490 | a turn of the loop is a run of the transition system's steps: with a socket ready a connection, one visit of each peer and messages taken; else at most one message |
| Guarantees.ReliablePutsNeverHang | dsplink/dspmain/gpp/dspmain.c:471-490 | with reliable puts it never waits in vain |
| Guarantees.LostPutHangs | dsplink/dspmain/dsp/dspmain.c:72-79 | one lost answer with nothing else in use hangs the daemon |
| Guarantees.HandshakeCanHang | dsplink/dspmain/dsp/dspmain.c:100-105 | a run of four steps that ends so |
| Guarantees.RepliesAnswer | dsplink/dspmain/gpp/dspmain.c:306-352 | every reply queued to a peer carries the kind and sequence number of that peer's own request and its answer: an int congruent to the product modulo 2^32, or the CRC-32 of the image the request names in the memory found |
| Guarantees.ComputedAtItsStep | dsplink/dspmain/dsp/dspmain.c:63-65 | the situation recorded with an answer is the one in which the DSP finished that very message |
| Guarantees.BytesAreReplies | dsplink/dspmain/gpp/dspmain_peer.c:383-417 | bytes sent to a peer and bytes queued for it are its replies in the order it asked |
| Guarantees.NoReplySkipped | dsplink/dspmain/gpp/dspmain.c:306-352 | no request of a connected peer is skipped unless the DSP lost it |
| Guarantees.RequestsAreHeard | dsplink/dspmain/gpp/dspmain_peer.c:302-381 | the requests forwarded for a peer are exactly those its bytes spell |
| Guarantees.ServiceExact | dsplink/dspmain/gpp/dspmain_peer.c:297-421 | a visit drops its peer exactly when reading or writing fails, and otherwise leaves it with the open part of its input and what the send left of its queue; no other peer changes |
| Guarantees.DisconnectedExact | dsplink/dspmain/gpp/dspmain_peer.c:297-421 | a step disconnects a peer exactly when it is that peer's own visit and reading or writing fails |
| Guarantees.Drains | dsplink/dspmain/gpp/dspmain_peer.c:383-417 | from any sound looping state, one visit per queued reply by a socket with room sends exactly the queued bytes and empties the queue, no other peer changing |
| Guarantees.AllRepliesDelivered | dsplink/dspmain/gpp/dspmain_peer.c:383-417 | as many visits as a peer has replies queued, its socket taking whole ones, bring it every answer and leave its queue empty |
| Guarantees.ConnectedBefore | dsplink/dspmain/gpp/dspmain_peer.c:425-450 | every connected peer has the id and socket a connection gave it |
| Guarantees.ReplyQueueWasLocated | dsplink/dspmain/dsp/dspmain.c:95-101 | the queue a request is to be answered to is one the DSP located |
| Guarantees.StoppedExact | dsplink/dspmain/dsp/dspmain.c:66-70 | the DSP has stopped exactly when it has taken a shutdown message, and then never does anything again |
| Guarantees.IdsNeverReturn | dsplink/dspmain/gpp/dspmain_peer.c:435-436 | an id given up is never given out again |
| Guarantees.LateAnswerDropped | dsplink/dspmain/gpp/dspmain.c:315-350 | an answer for a removed peer reaches nobody, even if its socket number is reused |
| Guarantees.PassIsSteps | dsplink/dspmain/gpp/dspmain_peer.c:297-421 | one traversal is a run of single visits |
| Client.MultResultFound | dsplink/dspmain/gpp/libdspmain.c:118-167 | when only older products precede the cookie's own reply, its value is returned and all behind it stays unread |
| Client.MultResultExact | dsplink/dspmain/gpp/libdspmain.c:118-167 | the call succeeds exactly then |
| Client.Crc32ResultExact | dsplink/dspmain/gpp/libdspmain.c:201-250 | the call succeeds exactly when a checksum comes first and is the cookie's own, or is older and a product call behind it would succeed |
| Client.RefusedReply | dsplink/dspmain/gpp/libdspmain.c:136-155 | a call fails on less than a whole reply, another kind and another size |
| Client.FailedCallLeaves | dsplink/dspmain/gpp/libdspmain.c:141-160 | after meeting the other kind of reply a call leaves the stream in the middle of it; a later request's reply is lost |
| Client.Crc32AloneExact | dsplink/dspmain/gpp/libdspmain.c:244-247 | on checksums alone the call succeeds exactly when the cookie's own reply comes first |
| Client.SecondChecksumMissed | dsplink/dspmain/gpp/libdspmain.c:244-247 | two checksums where it fails, and the two products where the other call succeeds |
| Client.ProductsInTurn | dsplink/dspmain/gpp/libdspmain.c:118-167 | calls for any ascending cookies among ascending products, each reading on where the last stopped, return each its own value |
| Client.AllInTurn | dsplink/dspmain/gpp/dsptestsck.c:190-252 | products and checksums taken in the order of their replies all return their own value |
| Client.TakeResults | dsplink/dspmain/gpp/dsptestsck.c:190-252 | a sequence of calls on one library object returns what the draining functions say, each on what the one before left |
| Client.Library.Flush | dsplink/dspmain/gpp/libdspmain.c:253-276 | whole requests go out; a short send is an error, and what was not sent is forgotten |
| Client.Library.RequestMult | dsplink/dspmain/gpp/libdspmain.c:91-115 | the request made is the next one, whole, within the buffer, under a fresh cookie; nothing is sent while it fits the buffer |
| Client.Library.RequestCrc32 | dsplink/dspmain/gpp/libdspmain.c:170-198 | the same for checksums |
| Client.Library.MultResult | dsplink/dspmain/gpp/libdspmain.c:118-167 | flushes, drains, terminates, and returns what the draining function says |
| Client.Library.Crc32Result | dsplink/dspmain/gpp/libdspmain.c:201-250 | flushes, and returns what its draining function says |
| Client.Library.DaemonSeesRequests | dsplink/dspmain/gpp/libdspmain.c:91-115 | while flushes are complete, the bytes sent parse into the requests flushed, and with the buffer they are all requests made |
| EndToEnd.ReplyAnswersRequest | dsplink/dspmain/gpp/dspmain.c:306-352 | in every reachable state, unless the DSP lost one of its answers, reply i to a connected peer is the answer to its request i |
| EndToEnd.ClientGetsProducts | dsplink/dspmain/gpp/libdspmain.c:118-167 | in every reachable state a client that has taken some replies gets, by calls for any ascending cookies that have arrived, the low 32 bits of the product of each request's own numbers |
| EndToEnd.ClientGetsChecksum | dsplink/dspmain/gpp/libdspmain.c:201-250 | a client that has taken the replies before it gets, with its cookie, the answer to its checksum request in the memory the DSP found |
| EndToEnd.TestProgramMatches | dsplink/dspmain/gpp/dsptestsck.c:248-253 | for the test program's images any answer is, read as unsigned, the number the host computes row by row |
| EndToEnd.LibraryGetsAnswers | dsplink/dspmain/gpp/dsptestsck.c:170-253 | a library object that takes its results in the order of its requests gets, from wherever it is, the right answer to each, products and checksums |
| EndToEnd.LibraryGetsProducts | dsplink/dspmain/gpp/libdspmain.c:118-167 | one that makes only products may skip results and lose others, and still gets the low 32 bits of the product of its own two numbers for each cookie |
| Gears.Multiply | gles2gears/gles2gears.c:329-351 | in place, the column-major product of the two old arrays, even when they are the same array |
| Gears.ProductOfFlat | gles2gears/gles2gears.c:329-351 | on affine matrices the product is the composition of linear parts and translations |
| Gears.ProductEntry | gles2gears/gles2gears.c:329-351 | entry by entry, row of the first factor times column of the second |
| Gears.RotationOnAxes | gles2gears/gles2gears.c:362-387 | about each axis the turn takes the next axis towards the one after it |
| Gears.RotateBy | gles2gears/gles2gears.c:362-387 | multiplies by the rotation matrix |
| Gears.TranslateBy | gles2gears/gles2gears.c:415-425 | multiplies by the translation matrix |
| Gears.TransposedTwice | gles2gears/gles2gears.c:432-454 | transposition exchanges rows and columns and undoes itself |
| Gears.TurnedPreservesDot | gles2gears/gles2gears.c:362-387 | turning about a unit axis preserves dot products |
| Gears.RotationRigid | gles2gears/gles2gears.c:362-387 | rotate's matrix is orthonormal by rows and columns for a unit axis |
| Gears.ReachedRigid | gles2gears/gles2gears.c:362-425 | every matrix reached by translations and unit-axis rotations is rigid |
| Gears.RightInverseExact | gles2gears/gles2gears.c:456-481 | for any sixteen numbers, the result is a right inverse exactly when the rows of the linear part are orthonormal and the last row is 0 0 0 1, or 0 0 0 -1 with no translation |
| Gears.LeftInverseExact | gles2gears/gles2gears.c:456-481 | it is a left inverse exactly when the columns are, and the rest is the same |
| Gears.AffineInverseExact | gles2gears/gles2gears.c:456-481 | on affine matrices both conditions are about the linear part alone |
| Gears.StrayBottomNotInverted | gles2gears/gles2gears.c:456-481 | the identity with a stray number in the last row is not inverted |
| Gears.NegativeCornerInverted | gles2gears/gles2gears.c:456-481 | the identity with -1 in the corner, which is not affine, is |
| Gears.InvertUndoesRun | gles2gears/gles2gears.c:456-481 | after any such calls invert gives the two-sided inverse under multiply, and the last row is 0 0 0 1 |
| Gears.NonUnitAxisNotInverted | gles2gears/gles2gears.c:456-481 | a rotation about a longer axis that is not inverted |
| Gears.Invert | gles2gears/gles2gears.c:463-481 | the in-place method computes the inverse of the theorems |

## Left out

- Dspmain.Dspmain.CheckFds: the nodes of the heap list carry the contents of a client's buffers by value; the buffers themselves are on the heap in PeerBuffers, and that the buffers of different clients are disjoint objects is not part of the list's invariant.
- Dspmain.Dspmain.CheckFds: the return code, which only selects whether a line is logged, is not modelled.
- PingPong.ProcessDmaIn: transfers that fail, and cache coherence; DMA_WAIT clears an error and carries on, so success is assumed.
- CrcKernels.CrcUpdate16: a multi-byte load is modelled as byte loads with the engine free to move in between.
- TilePipeline.ProcessDmaPro: source and destination addresses of the tile transfers, which the source names only in comments.
- Protocol.Reachable: that peers are served one visit at a time in list order is not required; any order is allowed, and PassIsSteps and TurnIsSteps show that a traversal and a turn of the loop are such runs.
- EndToEnd.LibraryGetsAnswers: the library is not a party of the transition system; that the daemon hears what it wrote, and that it reads what the daemon sent, are stated as prefixes.
- DspTask.Work: a request that is not Streamable, for which process_dma_in divides by zero, misreads rows or reads its own buffers; its answer is unknown.
- Client.Library.MultResult: a recv that returns fewer bytes although more will come is treated as the end of the data, which is an error in both.
- Gears.Multiply: rounding; numbers are reals, and sine and cosine any pair with unit sum of squares.
- Overflow of the sequence and id counters: runs shorter than 2^31 events are assumed.
- Memory allocation failures, except as the removal of a peer or an error return.
- Sockets, select, accept, signals, daemonising, logging and argument parsing; DSP/BIOS, DSPLINK and EDMA3 driver internals beyond the contracts stated in Edma and Protocol.
- dspmain_peer_queue_copy, dspmain_peer_get_fds and dspmain_peer_cleanup, which would only add easy members.
- OpenGL, timing and perspective in gles2gears.
