# Verification of the data acquisition and its bundled web server

This project models RCDAQ, a data acquisition, and proves properties of the model in Dafny 4.11.
`dafny verify dfyconfig.toml` checks everything.

**The acquisition pipeline** (`Pipeline*.dfy`). Four threads share two buffers: the filler (event loop and
run commands), the file writer, the monitoring sender and the trigger loop. They synchronise with mutexes
used as binary semaphores, locked by one thread and unlocked by another. The model is a step machine with a
program counter per thread; a run is any list of steps, so each theorem holds in every interleaving. Ghost
logs record what was published, written and sent, file by file. The code leaves one thing to timing: that no
consumer still needs the buffers when a begin or reopen re-points them. In a guarded run that is so; the guard
is exact (`PipelineBegin.BeginIsSafeExactly`), and the rows below that depend on it say so.

**The run and the buffers** (`EventLayout.dfy`, `DaqEvents.dfy`, `DaqBuffers.dfy`, `OncsReader.dfy`,
`RunControl.dfy`, `Acquisition.dfy`, `Runs.dfy`). Events with their subevents are laid out in one array of words
with several redundant counters. The classes update that array in place as the program does; a walk over the
words, and the library that reads such buffers, find what was put in. On top of it are readout with the
rollback of empty events, the timed and forced switches, and the begin, restart and end of a run; and whole
runs, whose files are those of a plan computed from the readouts and the limits.

**Devices** (`Devices.dfy`). Two devices that put the contents of a file into a subevent.

**The bundled web server** (`UriPath.dfy`, `Json*.dfy`, `Chunk*.dfy`, `WebSocket*.dfy`, `Mbuf.dfy`,
`BlockHashing.dfy`, `BlockBuffer.dfy`, `Md5.dfy`, `Sha1.dfy`, `RandomMd5.dfy`, `Md5Digests.dfy`, `Base64.dfy`).
Algorithms that rewrite a buffer in place or take their input in arbitrary pieces. Each method is proved against
a function on sequences, and that function against something independent of it: the algorithm of a standard, an
inverse, or the same function on the whole input. `Memory.dfy`, `Bytes.dfy` and `Sequences.dfy` hold what they share.

What the code does otherwise than its callers may expect is stated as it is, with the exact condition:

- The reader reports the end record of a buffer without events as an event
  (`OncsReader.ReadsEndRecordOfEmptyBuffer`).
- The end of a run does not wait for the sender, so the last buffer can be announced as 0
  (`PipelineTheorems.AnnouncedNumber`, `PipelineLiveness.LastAnnouncementCanBeZero`).
- The begin of a run and the next file re-point the buffers without waiting for the sender, or for the writer
  after a run without a file. That is harmless exactly if the last buffer has been sent and, when a file is
  opened, the writer has taken its turn (`PipelineBegin.BeginIsSafeExactly`, `BeginKeepsExactly`,
  `BeginIsFifoStep`, `BeginMovesTransport`); otherwise see `OverlapTearsABuffer` and `WriterCrossesRuns`.
- A begin that fails its size check leaves the status "running" behind (`Acquisition.Daq.DaqBegin`,
  `Runs.BeginCanFail`), and ending it writes a buffer that was not prepared (`PipelineLiveness.BeginFails`).
- When the next file cannot be opened the run goes on with wrong numbers (`PipelineTheorems.BuffersArriveInOrder`,
  `PipelineTheorems.AnnouncedNumber`, `PipelineLiveness.ReopenFails`).
- The file device keeps to the room it is given but not to its announced maximum
  (`Devices.FileDevice.PutData`, `Devices.MoreThanAnnounced`), and cuts earlier than it has to (`Devices.CutAt`).
- MD5_Update counts only the low 32 bits of a length (`Md5.LengthRight`, `Md5Digests.DigestsAgree`), and SHA-1
  adds lengths in 32 bits (`Sha1.Context.Update`).
- Announced lengths of chunks and WebSocket frames are added in 64 bits, so that an incomplete one can be taken
  for complete (`ChunkCoding.ScannedIsChunk`, `ChunkCoding.TakesWhatIsThere`, `WebSocketFrames.TakenIsFrame`, and
  the inputs in `HeaderTakenForChunk`, `HugeTakenForLast` and `HeaderTakenForFrame`). Where the program would then
  reach outside its buffer, the methods stop and say so.
- Event type 32 passes the guard of readout, although Eventsize has 32 entries (`Acquisition.Daq.Readout`).
- A WebSocket CLOSE frame can be missed, or noticed early (`WebSocket.CloseNoticed`, `WebSocket.CloseMissed`);
  the length 65535 does not get the shortest form that section 5.2 of RFC 6455 asks for
  (`WebSocketFrames.ShortestForm`).
- JSON commas are optional and keys may be bare names (`JsonLanguage.DocumentExactly`); keys are compared as written,
  and a trailing dot in a path is ignored (`JsonPath.Lookup`). After the end marker the parser enters a length into
  one more token, if the array has one; `JsonParser.ParseJson` says nothing about that token.

The compression functions of MD5 and SHA-1 are arbitrary functions of a state and 64 bytes. A token array of
length 0 stands for no array. The environment's choices are parameters: what a device delivers, whether time
is up, whether a file can be opened, what a trigger handler returns, whether a handler deletes a chunk, the
random mask of a frame.

## Model

| member | source | states |
|---|---|---|
| PipelineTheorems.ReachableInv | ddaq_earth/src/rcdaq.cc:1643-1661 | The invariant tying semaphores, program counters, buffers and logs holds in every state that a guarded run of any interleaving of the four threads reaches from the initial semaphore setup, including runs in which begins and reopens fail. |
| PipelineTheorems.StepKeeps | ddaq_earth/src/rcdaq.cc:669-718 | Every step of every thread in a guarded run keeps that invariant. |
| PipelineTheorems.TokenConservation | ddaq_earth/src/rcdaq.cc:695-718 | In every state of a guarded run each of the pairs WriteSem/WriteProtectSem, SendSem/SendProtectSem and TriggerSem/TriggerDone has exactly one token: one of the two is free or one thread holds it, never both and never none. |
| PipelineTheorems.TriggersServedOnce | ddaq_earth/src/rcdaq.cc:1266-1316 | In guarded runs every trigger posted is taken up once, in order and with its own event type; at most one is waiting; one taken during a run always gets its readout, so the branch that would drop it without an answer is dead. |
| PipelineTheorems.TriggersAsFound | ddaq_earth/src/rcdaq.cc:1195-1221 | In every guarded run the event types posted, and the one about to be, are exactly those that wait_for_trigger returned, in order, and those taken up are the first of them; the mark that something is to be done is set exactly from the finding until the readout is over. |
| PipelineContents.StatusFollowed | ddaq_earth/src/rcdaq.cc:1279-1309 | In guarded runs the event loop follows what the readout of a trigger returned, whatever the other threads do in between: with 1 it ends the run, with 2 it changes the file, otherwise it waits. |
| PipelineTheorems.NonInterference | ddaq_earth/src/rcdaq.cc:699-715 | In guarded runs fill and transport buffer differ whenever a consumer is between its lock and its unlock; from its publication until it is sent, and written to an open file, no filler step touches the transport buffer or the pointer to it; and consumers never write to a buffer, because their guarded addEoB never fires. |
| PipelineTheorems.SendChannelIsFifo | ddaq_earth/src/rcdaq.cc:583-592 | Every step of a guarded run is a step of a queue of capacity one from the published buffers to the sent ones: put when empty, take when full, reset when empty, or nothing. |
| PipelineTheorems.WriteChannelIsFifo | ddaq_earth/src/rcdaq.cc:669-693 | The same queue refinement, for guarded runs, of the buffers written to an output file. |
| PipelineTheorems.BuffersArriveInOrder | ddaq_earth/src/rcdaq.cc:695-718 | In guarded runs what is written to the open file, and what is sent, is a prefix of what was published, with at most one buffer outstanding. Bufseq starts at 1 unless the begin failed and goes on from Buffer_number; so without a failed begin it reads 1, 2, 3, ... if and only if at most one buffer has been published behind a reopen that failed, and always while a file is open. |
| PipelineContents.PublishedAsLaidOut | ddaq_earth/src/rcdaq.cc:695-718 | In every guarded run, unless the begin failed, each published buffer holds exactly what was last laid out in it since it was prepared, or nothing, and then the end record. |
| PipelineTheorems.FlushBeforeClose | ddaq_earth/src/rcdaq.cc:1161-1176 | In guarded runs, whenever the output file is closed, by the end of a run or for the next file, everything published since it was opened has been written to it and the writer is idle. |
| PipelineTheorems.ClosedFilesNeverChange | ddaq_earth/src/rcdaq.cc:1008-1024 | No later guarded run of steps, of any length and interleaving, adds to or changes what a closed file holds, even if the acquisition goes on without a file. |
| PipelineTheorems.ClosedFilesAreComplete | ddaq_earth/src/rcdaq.cc:1008-1024 | In guarded runs every file ever closed holds exactly the buffers published while it was open: all that were published until the numbers were reset unless the reopen failed, and numbered from 1 unless the begin failed. |
| PipelineTheorems.AnnouncedNumber | ddaq_earth/src/rcdaq.cc:583-592 | In guarded runs the number announced ahead of a buffer is its Bufseq + 1 if and only if the sender read it before the counter was reset and no reopen failed just before the buffer was published; after a failed reopen it is 1. Late announcements are 0 and only of the last buffer before a reset. The first buffer after a begin that failed is announced as 2, whatever its Bufseq. |
| PipelineLiveness.ReopenFails | ddaq_earth/src/rcdaq.cc:1058-1073 | A guarded run in which the next file cannot be opened: the run goes on, the buffer with Bufseq 2 is announced as 1, and is written nowhere. |
| PipelineLiveness.BeginFails | ddaq_earth/src/rcdaq.cc:931-951 | A guarded run in which the size check fails: ending the run publishes the buffer left behind by the run before, with Bufseq 3, and writes it to the newly opened file as its only one. |
| PipelineLiveness.NeverDeadlocks | ddaq_earth/src/rcdaq.cc:1195-1241 | From every state of a guarded run some schedule brings every thread back to its waiting point with all protect semaphores given back. |
| PipelineLiveness.BlockedOnlyByAPeer | ddaq_earth/src/rcdaq.cc:669-718 | In guarded runs a thread that waits for a token always waits for a peer that holds it and can itself proceed, so no wake-up is lost. |
| PipelineLiveness.DrainWriter | ddaq_earth/src/rcdaq.cc:669-693 | From any invariant state the writer alone, without any step of another thread, gives WriteProtectSem back. |
| PipelineLiveness.DrainSender | ddaq_earth/src/rcdaq.cc:583-592 | From any invariant state the sender alone gives SendProtectSem back. |
| PipelineLiveness.LastAnnouncementCanBeZero | ddaq_earth/src/rcdaq.cc:1161-1187 | A guarded run in which the last buffer is announced as number 0, because the end of a run does not wait for the sender. |
| PipelineBegin.BeginIsSafeExactly | ddaq_earth/src/rcdaq.cc:1083-1085 | From a state of a guarded run the buffers are re-pointed, by a begin or reopen, whether or not it then fails its size check: whatever guarded run follows, only what was published is sent and written, in order, if and only if the last buffer has been sent and, when a file is opened, the writer has taken its turn. Otherwise the steps of one consumer alone break it. |
| PipelineBegin.BeginKeepsExactly | ddaq_earth/src/rcdaq.cc:927-929 | Re-pointing the buffers keeps the invariant if and only if that same guard holds. |
| PipelineBegin.BeginIsFifoStep | ddaq_earth/src/rcdaq.cc:1083-1085 | It is a step of the queue to the monitoring client if and only if the last buffer has been sent. |
| PipelineBegin.BeginMovesTransport | ddaq_earth/src/rcdaq.cc:927-929 | It leaves the transport buffer where and as it is if and only if that is the second buffer. |
| PipelineBegin.OverlapTearsABuffer | ddaq_earth/src/rcdaq.cc:1083-1085 | A run in which the buffers are re-pointed while the sender is at work and the sender sends a buffer that was never published. |
| PipelineBegin.WriterCrossesRuns | ddaq_earth/src/rcdaq.cc:1161-1178 | A run without a file is ended, which does not wait for the writer, and one with a file is begun: the last buffer of the first becomes the first in the file of the second, which has not published anything. |
| EventLayout.EventRoundTrip | ddaq_earth_onlinelib/src/oncsEvent.cc:124-149 | Header and subevents of any well-formed event are read back exactly from its words, whatever follows them. |
| EventLayout.LayoutRoundTrip | ddaq_earth/src/daqONCSEvent.cc:20-66 | Walking the flat words by evt_length and, inside each event, by sub_length yields exactly the events laid out, in order, and stops at the (2,0) record. |
| EventLayout.LayoutIsInjective | ddaq_earth/src/daqONCSEvent.cc:20-66 | Two event lists with the same words are the same list. |
| DaqEvents.DaqEvent.constructor | ddaq_earth/src/daqONCSEvent.cc:4-13 | A new event at a place in the storage: header words for both formats, nothing outside them touched. |
| DaqEvents.DaqEvent.PrepareNext | ddaq_earth/src/daqONCSEvent.cc:20-50 | Header fields of a new event, with the special cases of a negative sequence number and a run number that is not positive; ONCS and PRDF. |
| DaqEvents.DaqEvent.AddSubevent | ddaq_earth/src/daqPRDFEvent.cc:18-30 | The device is called first and puts its words behind the others; evt_length (and the PRDF frame length) grow by as much, or not at all when less than no room was left. |
| DaqBuffers.DaqBuffer.PrepareNext | ddaq_earth/src/daqBuffer.cc:49-63 | An empty layout of the current maximum size, with the header words of the buffer. |
| DaqBuffers.DaqBuffer.NextEvent | ddaq_earth/src/daqBuffer.cc:74-102 | Refuses exactly the events whose announced size leaves no room for the end record; otherwise the layout grows by an empty event. |
| DaqBuffers.DaqBuffer.AddSubevent | ddaq_earth/src/daqBuffer.cc:105-116 | The last event grows by one subevent; all counters keep agreeing. |
| DaqBuffers.DaqBuffer.EmptyEvent | ddaq_earth/src/daqBuffer.cc:66-72 | Rolling back an ONCS event without subevents restores layout and counters of before. |
| DaqBuffers.DaqBuffer.AddEoB | ddaq_earth/src/daqBuffer.cc:119-128 | The end record is added exactly once and always fits. |
| DaqBuffers.DaqBuffer.WriteOut | ddaq_earth/src/daqBuffer.cc:140-150 | A write covers the buffer in whole blocks and does not change one that already has its end record. |
| DaqBuffers.DaqBuffer.SetMaxSize | ddaq_earth/src/daqBuffer.cc:199-215 | Status and resulting size for every argument, including the failing ones. |
| DaqBuffers.Capacity | ddaq_earth/src/daqBuffer.cc:49-116 | Before the end record: Length = 4*(4+current_index), left+current_index = max_size-8, the end record fits, and the current event never has more room than its buffer. |
| DaqBuffers.BuiltBufferWalks | ddaq_earth/src/daqBuffer.cc:66-128 | Whatever sequence of operations built a finished buffer, walking its memory gives exactly its events and ends in a (2,0) record at Length/4 words. |
| DaqBuffers.FrameLengthFollows | ddaq_earth/src/daqPRDFEvent.cc:18-79 | In PRDF format evt_length stays 8 words ahead of the frame length. |
| DaqBuffers.RoundedUpIsLeast | ddaq_earth/src/daqBuffer.cc:146-148 | The byte count of a write is the least multiple of 8192 that covers the buffer. |
| DaqBuffers.WritesFit | ddaq_earth/src/daqBuffer.cc:146-148 | A write stays inside the maximum size for every fill level if and only if that size is a whole number of blocks. |
| DaqBuffers.SizesAreWholeBlocks | ddaq_earth/src/daqBuffer.cc:199-215 | Every size that can be set is a whole number of blocks when the allocation is, and exceeds the request by less than a block. |
| DaqBuffers.WriteStaysInside | ddaq_earth/src/daqBuffer.cc:140-150 | The write of a finished buffer never reads past its allocation. |
| OncsReader.OncsBuffer.GetEvent | ddaq_earth_onlinelib/src/oncsBuffer.cc:165-205 | Which index the reader returns and where it moves, in every branch and for any event length, also one that leads behind the buffer. |
| OncsReader.ReadAll | ddaq_earth_onlinelib/src/oncsBuffer.cc:165-205 | On a finished buffer with at least one event the reader finds exactly the builder's events, in order, and stops. |
| OncsReader.ByteOrderOf | ddaq_earth_onlinelib/src/oncsEventiterator.cc:146-157 | The test of the ID word, in both byte orders. |
| OncsReader.SwappedBytes | ddaq_earth_onlinelib/src/oncsBuffer.cc:115-129 | The byte order is turned round: four bytes in the other order. |
| OncsReader.ReadPublished | ddaq_earth_onlinelib/src/oncsBuffer.cc:13-27 | Every published buffer of a run passes that test as it is, and the reader finds exactly its events. |
| OncsReader.SubeventStarts | ddaq_earth_onlinelib/src/oncsEvent.cc:124-149 | The subevent loop finds exactly the subevents that were put in. |
| OncsReader.ReadsEndRecordOfEmptyBuffer | ddaq_earth_onlinelib/src/oncsBuffer.cc:165-205 | On a finished buffer without events the reader reports the end record as an event. |
| RunControl.ReadDevices | ddaq_earth/src/rcdaq.cc:1380-1383 | The device loop: lengths add up, and exactly the devices with something to say are laid out, in order. |
| RunControl.WantedMaxSize | ddaq_earth/src/rcdaq.cc:933-942 | The size check asks for nothing exactly if both buffers fit every event type, and otherwise for the largest size. |
| RunControl.EventSizeOf | ddaq_earth/src/rcdaq.cc:1470-1490 | The announced size of an event type: header plus the maximum of every device. |
| Acquisition.Daq.SwitchBuffer | ddaq_earth/src/rcdaq.cc:695-718 | Publishes the full buffer with its ID and number, keeps every committed event, and leaves an empty fill buffer with the next number; the write of the published buffer, in whole blocks, stays inside its memory. |
| Acquisition.Daq.StartEvent | ddaq_earth/src/rcdaq.cc:1372-1377 | Within a run a new event always gets placed: after at most one switch the second attempt cannot fail, so there is always a current event to add to. |
| Acquisition.Daq.ReadEvent | ddaq_earth/src/rcdaq.cc:1358-1395 | One readout commits exactly one event with the next number and the delivered subevents, or rolls back and commits nothing; the run invariants (capacity, numbering without gaps, volume = sum of Length-24 over published buffers plus fill Length-16) are kept. |
| Acquisition.Daq.Readout | ddaq_earth/src/rcdaq.cc:1358-1452 | The same for the whole readout: how often the buffers are switched, when full and when time is up, the time of the event, and the code that asks for the end of the run or a new file, in terms of the limits. Exactly for event type 32 the guard lets a lookup outside Eventsize pass. |
| Acquisition.Daq.CheckLimits | ddaq_earth/src/rcdaq.cc:1419-1435 | 1 exactly if a data event of a run has brought the number of events to its limit; 2 exactly if not that, but the volume to its limit. |
| Acquisition.Daq.FitBuffers | ddaq_earth/src/rcdaq.cc:931-954 | The begin-time check succeeds if and only if both buffers already fit or can be made to fit, and then both have 4*Eventsize+128 bytes for every event type. |
| Acquisition.Daq.DaqBegin | ddaq_earth/src/rcdaq.cc:884-991 | Returns 0 if and only if no run was active, the file could be opened, and every event type (8 words and the maxima of all devices) fits both buffers as they are set or, in whole blocks, the memory of both. Then the begin-run event is numbered 1 and all run invariants hold; the failing paths say what is left behind: always the next run number; and after a failed size check the status running, the numbers at 1, the buffers re-pointed and their sizes changed, but no buffer prepared. |
| Runs.BeginCanFail | ddaq_earth/src/rcdaq.cc:931-951 | A device for which the begin fails and leaves the status running. |
| Acquisition.Daq.DaqEnd | ddaq_earth/src/rcdaq.cc:1149-1192 | At the end everything committed is published in buffers 1, 2, 3, ..., the events are numbered 1, 2, 3, ... across them, and the volume is the sum over them. |
| Acquisition.Daq.DaqRestartNewFile | ddaq_earth/src/rcdaq.cc:994-1140 | The closed file has all of that, volume included, with the end-run event last; the next run number starts again from buffer 1 and event 1 if and only if the new file can be opened, because the sizes checked at the begin still fit. A reopen that fails leaves the buffer prepared for the old run, and the numbers of buffers and events and the volume at 0. |
| Runs.WholeRun | ddaq_earth/src/rcdaq.cc:884-1192 | A run from begin to end, for any list of triggers and across changes of file: it starts if and only if the condition of DaqBegin holds, and then its files, with run numbers in sequence, are those that a plan computed from the readouts and the limits alone calls for. Each holds buffers 1, 2, 3, ... with one event for each readout that had something to say, numbered 1, 2, 3, ..., and its volume is the sum over its buffers and what its events take up. |
| Runs.EventLoop | ddaq_earth/src/rcdaq.cc:1266-1316 | The same for the event loop, which ends with the file open, at the limit, or without a file. |
| Runs.PlanExactly | ddaq_earth/src/rcdaq.cc:1419-1435 | In that plan a run ends at its limit exactly at the first trigger of type 1 that brings the number of events there; a file is changed exactly at the others of type 1 that bring the volume to its limit; at every other trigger the file stays open. |
| Runs.NextTrigger | ddaq_earth/src/rcdaq.cc:1279-1309 | One trigger in the plan: it goes into the open file, and then the run ends, the file is changed, or the run has no file, as the limits and the new file say. |
| Runs.EveryTriggerOnce | ddaq_earth/src/rcdaq.cc:1266-1316 | In that plan every trigger is in exactly one file, in order, until the run is at its limit or without a file. |
| Runs.CountersFollow | ddaq_earth/src/rcdaq.cc:1384-1395 | At any time in a run the event number and the volume are those that the readouts so far add up to, however they were spread over buffers. |
| Acquisition.CanFitWanted | ddaq_earth/src/rcdaq.cc:943-951 | Setting the wanted size succeeds for a buffer if and only if the largest event, rounded up to whole blocks, fits its memory; then all event types fit. |
| UriPath.NormalizeUriPath | ddaq_earth/src/mongoose.cc:4100-4132 | In place: relative or empty paths are refused untouched; otherwise the output is the normal form of the input, no longer than it, and nothing outside the input changes. |
| UriPath.ParseComponent | ddaq_earth/src/mongoose.cc:3972-3982 | The component ends at the first separator; the position moves behind it. |
| UriPath.PushPiece | ddaq_earth/src/mongoose.cc:4110-4126 | One round: the text of the stack after the push; the write pointer never passes the read pointer. |
| UriPath.NormalForm | ddaq_earth/src/mongoose.cc:4100-4132 | The normal form starts with a slash, has no "." or ".." segment, and is its own normal form. |
| UriPath.NormalIsRemoveDotSegments | ddaq_earth/src/mongoose.cc:4100-4132 | For every absolute path the result is that of the input/output buffer algorithm of section 5.2.4 of RFC 3986. |
| JsonParser.ParseJson | ddaq_earth/src/mongoose.cc:980-992 | Result code and token array for every text and every array size: the tokens of the tree in preorder and an end marker, the first error, or "array too small" exactly when the tokens begun before the error do not fit. |
| JsonParser.Frozen.Doit | ddaq_earth/src/mongoose.cc:960-977 | One object or array and the end marker. |
| JsonParser.Frozen.ParseValue | ddaq_earth/src/mongoose.cc:879-919 | The mutually recursive parser, which terminates on every input, takes exactly the value of the grammar and appends its tokens. |
| JsonParser.Frozen.ParseObject | ddaq_earth/src/mongoose.cc:946-957 | Objects: members up to the closing bracket, commas optional; the token gets its length and number of descendants. |
| JsonParser.Frozen.ParseArray | ddaq_earth/src/mongoose.cc:844-856 | Arrays, in the same way. |
| JsonParser.Frozen.ParseString | ddaq_earth/src/mongoose.cc:796-815 | Strings with escapes and bytes of longer characters, with the position of every error. |
| JsonParser.Frozen.ParseNumber | ddaq_earth/src/mongoose.cc:818-841 | Numbers with fraction and exponent. |
| JsonParser.Frozen.Expect | ddaq_earth/src/mongoose.cc:864-876 | The words null, true and false. |
| JsonParser.Frozen.CapturePtr | ddaq_earth/src/mongoose.cc:747-761 | A token is begun if there is room; without a table nothing is recorded. |
| JsonParser.Frozen.CaptureLen | ddaq_earth/src/mongoose.cc:763-769 | Length and number of descendants are entered for an index inside the table, and for no other. |
| JsonShape.DocumentShape | ddaq_earth/src/mongoose.cc:844-992 | A parsed text is one object or array; every token's text fits its kind, children lie strictly inside their parents, siblings one behind the other, and members come in pairs of a string and a value. |
| JsonShape.TableNests | ddaq_earth/src/mongoose.cc:747-769 | In the table of a parsed text the num_desc tokens behind a token are exactly those inside it, and the root has all others. |
| JsonPath.FindJsonToken | ddaq_earth/src/mongoose.cc:1015-1050 | On any such table the skipping search finds the token of the tree that the path leads to, and nothing exactly when the tree has none. |
| JsonPath.SelectChild | ddaq_earth/src/mongoose.cc:1029-1043 | The inner loop with its skips over descendants picks the child that an index or the first equal key names. |
| JsonPath.LookupFollows | ddaq_earth/src/mongoose.cc:1015-1050 | Looking up a written path such as a.b[3].c is following its steps in the tree. |
| JsonTexts.DocumentRead | ddaq_earth/src/mongoose.cc:980-992 | Every array or object written as JSON text, with any white space before values, keys, colons, commas and closing brackets, with or without commas, and with quoted or bare keys, is parsed, whatever follows it, into the tree of its values. |
| JsonLanguage.DocumentExactly | ddaq_earth/src/mongoose.cc:844-992 | The parser takes a text if and only if it begins with an array or object so written, and its tokens are those of that value. |
| JsonPrefix.DocumentDecided | ddaq_earth/src/mongoose.cc:664-992 | A text that is not reported as incomplete decides about every text that begins with it; the only errors are -1 and -2. |
| JsonPrefix.CutIsIncomplete | ddaq_earth/src/mongoose.cc:664-992 | A document that has not arrived as a whole is reported as incomplete, wherever it was cut. |
| JsonTexts.LookupInWritten | ddaq_earth/src/mongoose.cc:1015-1050 | Writing a value, parsing the text and looking a path up finds the token with kind and text of what the steps lead to in the value, and nothing exactly when they lead nowhere. |
| ChunkedBody.ParseChunk | ddaq_earth/src/mongoose.cc:4883-4914 | For every input: where the scan, with its counters in a size_t, finds bytes, data and length of a chunk, and 0 where it finds none. |
| ChunkCoding.ScannedIsChunk | ddaq_earth/src/mongoose.cc:4883-4914 | The scan finds the chunk that is there if and only if the announced length is kept: it fits a size_t, or there is no line end where the reduced position points. Otherwise it takes an incomplete chunk for a complete one. |
| ChunkCoding.TakesWhatIsThere | ddaq_earth/src/mongoose.cc:4926-4939 | The loop over the chunks takes what decoding finds if and only if that holds of every chunk read; otherwise it goes beyond its input or swallows characters. |
| ChunkCoding.HeaderTakenForChunk | ddaq_earth/src/mongoose.cc:4891-4911 | The header FFFFFFFFFFFFFFFE alone is taken for a chunk of 18 bytes whose data goes beyond the buffer. |
| ChunkCoding.HugeTakenForLast | ddaq_earth/src/mongoose.cc:4891-4911 | A chunk of 2 to the 64 bytes is taken for the last one. |
| ChunkedBody.Collapse | ddaq_earth/src/mongoose.cc:4926-4939 | The in-place loop, for every input: old and new bodies are joined, the rest is what the scan leaves, and writing never overtakes reading; it stops as soon as a chunk would be copied from outside. |
| ChunkedBody.HttpConnection.HandleChunked | ddaq_earth/src/mongoose.cc:4916-4969 | For every input, body and unparsed rest after one call, with and without the handler deleting the chunk, and the message length when the last chunk has come. |
| ChunkedBody.HttpConnection.Receive | ddaq_earth/src/mongoose.cc:5100-5104 | One receive adds to the body (deleted or kept) and leaves as rest what the loop takes of old rest and new bytes, for every input. If they were those of decoding the whole stream at once, they stay so if and only if no announced length is lost. |
| ChunkedBody.HttpConnection.ReceiveAll | ddaq_earth/src/mongoose.cc:5083-5104 | A whole list of receives up to the last chunk: the body and the rest are those of decoding the whole stream at once, however it is split, if and only if no announced length is lost in it. |
| ChunkStreams.PiecesExactly | ddaq_earth/src/mongoose.cc:4916-4969 | The same of the loop on sequences, for every list of pieces; when a length is lost it swallows characters or goes outside. |
| ChunkStreams.LengthsExtend | ddaq_earth/src/mongoose.cc:4883-4914 | No length is lost in a stream if and only if none is lost before and behind any place at which it is interrupted. |
| ChunkedBody.SendChunk | ddaq_earth/src/mongoose.cc:6087-6095 | What is sent is the encoding of the data as one chunk. |
| ChunkCoding.DecodeExtends | ddaq_earth/src/mongoose.cc:4916-4969 | Decoding may be interrupted anywhere and resumed on the rest with the new bytes. |
| ChunkCoding.EncodedBodies | ddaq_earth/src/mongoose.cc:6087-6095 | Decoding what was sent gives the bodies back, joined, up to the first empty one, which ends the message and leaves all that follows untouched. |
| ChunkCoding.WrittenBodies | ddaq_earth/src/mongoose.cc:4883-4914 | Chunks of any sender, with the digits of their lengths in upper or lower case or mixed, and with leading zeros, decode to their bodies up to the last, empty one. |
| ChunkCoding.DigitCharRead | ddaq_earth/src/mongoose.cc:4891-4897 | The digits 0 to 9, a to f and A to F have the values 0 to 15. |
| ChunkCoding.SentIsWritten | ddaq_earth/src/mongoose.cc:6087-6095 | A sent chunk is one of those, in upper case and without leading zeros. |
| Mbufs.Mbuf.Insert | ddaq_earth/src/mongoose.cc:1509-1539 | Insertion at any place, with or without a bigger buffer. |
| Mbufs.Mbuf.Remove | ddaq_earth/src/mongoose.cc:1545-1550 | Removal from the front; too much is not removed, and removing everything leaves the stale bytes. |
| Md5.Context.Update | ddaq_earth/src/mongoose.cc:1353-1386 | The context represents the message so far, however it was split: whole blocks in the state, the rest in the buffer, the length counted modulo 2 to the 32 per call. |
| Md5.Context.Final | ddaq_earth/src/mongoose.cc:1388-1413 | The digest is the fold of the compression function over the message with the standard padding of the counted length, low byte first. |
| Md5.LengthRight | ddaq_earth/src/mongoose.cc:1353-1357 | That length is the true one if and only if what the cut lengths leave out is a multiple of 2 to the 61 bytes. |
| Md5Digests.BothDigests | ddaq_earth/src/mongoose.cc:1353-1413 | For the same message, split in two ways, both implementations give the same digest, whatever the compression function, if the first counts its length right. |
| Md5Digests.DigestsAgree | ddaq_earth/src/simpleRandom.cc:43-113 | What the two hash is the same if and only if the length is counted right: for a compression function that forgets nothing the digests differ otherwise. |
| Md5Digests.CutLength | ddaq_earth/src/mongoose.cc:1353-1357 | One piece of 2 to the 32 bytes is counted as nothing. |
| RandomMd5.Context.Update | ddaq_earth/src/simpleRandom.cc:43-77 | The second, differently written MD5 represents the message in the same way. |
| RandomMd5.Context.Final | ddaq_earth/src/simpleRandom.cc:83-113 | Its digest is the same fold over the same padded message, so both hand the compression function the same blocks. |
| Sha1.Context.Update | ddaq_earth/src/mongoose.cc:1727-1745 | SHA-1 buffering, with blocks taken directly from the data, for every 32-bit length: right if and only if the buffered bytes and the new ones together still fit 32 bits. |
| Sha1.Context.Final | ddaq_earth/src/mongoose.cc:1747-1769 | Padding fed byte by byte is the standard padding with the length high byte first. |
| BlockHashing.Feed | ddaq_earth/src/mongoose.cc:1353-1386 | Bytes that at most fill the buffer keep state and buffer representing the longer message. |
| BlockHashing.PadOneBlock | ddaq_earth/src/mongoose.cc:1388-1413 | The last block when the padding fits. |
| BlockHashing.PadTwoBlocks | ddaq_earth/src/mongoose.cc:1388-1413 | The last two blocks when it does not. |
| BlockHashing.PaddedLayout | ddaq_earth/src/mongoose.cc:1388-1413 | The padding: a byte with only its top bit set, as few zeros as bring the length to the end of a block, and the length. |
| Bytes.LowFirstOfBytes | ddaq_earth/src/mongoose.cc:1406-1411 | The number that the bytes of the length make up, the lowest first, is the length. |
| Bytes.BytesAreDigits | ddaq_earth/src/mongoose.cc:4684-4702 | Each byte of a number, in either order, is its digit in base 256. |
| BlockHashing.AddBitsCounts | ddaq_earth/src/mongoose.cc:1353-1357 | Two 32-bit words with a carry count modulo 2 to the 64. |
| WebSocket.Connection.Deliver | ddaq_earth/src/mongoose.cc:4559-4643 | One step of the receive loop: nothing for an incomplete frame, else the unmasked message is delivered and the frame removed; the close flag is set by the byte actually looked at. It goes outside the buffer if and only if the announced lengths wrap to a position inside it. |
| WebSocketFrames.TakenIsFrame | ddaq_earth/src/mongoose.cc:4559-4595 | The comparison with the buffer recognises the frame that is there if and only if the sum of the lengths fits 64 bits or wraps to 0 or beyond the buffer. |
| WebSocketFrames.HeaderTakenForFrame | ddaq_earth/src/mongoose.cc:4559-4595 | Ten bytes of a header that announces 2 to the 64 less 1 bytes are taken for a whole frame of 9. |
| WebSocket.Connection.Receive | ddaq_earth/src/mongoose.cc:4776-4784 | One receive: exactly the complete messages of all that was received have been delivered, in order, and the incomplete rest is untouched, if and only if no announced length is lost. |
| WebSocket.Connection.ReceiveAll | ddaq_earth/src/mongoose.cc:4776-4784 | The same of a whole list of receives, however the stream is split, with an if-and-only-if on the whole stream; and when the connection is to be closed. |
| WebSocketFrames.FramesExtend | ddaq_earth/src/mongoose.cc:4559-4643 | Lengths are kept, and frames are whole, in a stream if and only if they are so before and behind any place. |
| WebSocket.Unmask | ddaq_earth/src/mongoose.cc:4596-4601 | Unmasking in place applies the key to the payload and to nothing else. |
| WebSocket.SendFrame | ddaq_earth/src/mongoose.cc:4723-4736 | What is sent is the frame of the message, masked for a client. |
| WebSocket.FlagsMean | ddaq_earth/src/mongoose.cc:4683 | The first byte of a frame carries the opcode and is final exactly without WEBSOCKET_DONT_FIN; so a receiver takes it for a part exactly with that flag or for a continuation, and for a close exactly with opcode 8. |
| WebSocket.MaskFrame | ddaq_earth/src/mongoose.cc:4715-4721 | Masking in place covers exactly what was appended from the noted position on. |
| WebSocket.CloseNoticed | ddaq_earth/src/mongoose.cc:4636-4639 | A receive sets the close flag exactly when a CLOSE frame was delivered, if and only if the stated condition on first frame and last look holds; the test reads the buffer after the frame is removed. |
| WebSocket.CloseMissed | ddaq_earth/src/mongoose.cc:4636-4639 | A CLOSE frame followed by another frame in the same receive goes unnoticed. |
| WebSocketFrames.DecodeExtends | ddaq_earth/src/mongoose.cc:4559-4643 | Decoding frames may be interrupted anywhere. |
| WebSocketFrames.FrameOfEncoded | ddaq_earth/src/mongoose.cc:4678-4712 | Masked or not, and in each of the three length classes, a sent frame is read as its message and followed by what followed it. |
| WebSocketFrames.EncodedMessages | ddaq_earth/src/mongoose.cc:4678-4735 | Any list of sent messages is delivered exactly and in order. |
| WebSocketFrames.ShortestForm | ddaq_earth/src/mongoose.cc:4684-4702 | The length takes the shortest of the three forms if and only if it is not 65535. |
| WebSocketFrames.LengthBytesMean | ddaq_earth/src/mongoose.cc:4684-4702 | The length field as section 5.2 of RFC 6455 describes it, byte by byte. |
| WebSocketFrames.MaskedBits | ddaq_earth/src/mongoose.cc:4596-4601 | Masking inverts each bit of the data exactly where the octet of the key with its index modulo 4 has a one, as section 5.3 of RFC 6455 asks for. |
| Base64.Context.Update | ddaq_earth/src/mongoose.cc:183-193 | However the data is split, whole groups are encoded and the rest is kept. |
| Base64.Context.Finish | ddaq_earth/src/mongoose.cc:195-205 | The characters put out are the encoding of everything taken in. |
| Base64.EncodeInto | ddaq_earth/src/mongoose.cc:207-243 | The one-shot encoder writes the same encoding and a zero behind it. |
| Base64.DecodeInto | ddaq_earth/src/mongoose.cc:305-322 | Bytes and number of characters taken for every text, legal or not. |
| Base64.RoundTrip | ddaq_earth/src/mongoose.cc:305-322 | Decoding an encoding takes all of it and gives the bytes back. |
| Base64.EncodeSplits | ddaq_earth/src/mongoose.cc:183-193 | Whole groups can be encoded one after the other. |
| Base64.TableIsDigit | ddaq_earth/src/mongoose.cc:146-157 | The arithmetic of the streaming encoder and the table of the other give the same characters. |
| Base64.ValueExactly | ddaq_earth/src/mongoose.cc:264-302 | The decoder knows exactly the 64 characters of the alphabet, by their place in it, and the padding. |
| Base64.SameNumber | ddaq_earth/src/mongoose.cc:183-193 | Three bytes and the four values they are cut into are the same number of 24 bits. |
| Base64.DecodeStops | ddaq_earth/src/mongoose.cc:305-322 | Decoding takes whole groups and stops at the first that is not full or holds a character outside the alphabet, or behind the first that holds padding. |
| Devices.FileDevice.PutData | ddaq_earth/src/daq_device_file.cc:114-152 | For any file and any room, also when reading fails: an even length, within the room if and only if that is at least 6 words; the bytes of the file up to the stated cut; and the exact payload size recoverable from length and padding. The length keeps to the announced maximum if and only if the payload that file and room lead to does. |
| Devices.CutAt | ddaq_earth/src/daq_device_file.cc:116-123 | A file is kept whole exactly up to 4 * (room - 6) bytes and cut there otherwise, although four bytes more would always have fitted. |
| Devices.MoreThanAnnounced | ddaq_earth/src/daq_device_file.cc:169-173 | A file of 16 bytes and a device that announces 7 words: with room for 20 it puts 8. |
| Devices.FileNumbersDevice.PutData | ddaq_earth/src/daq_device_filenumbers.cc:105-149 | For any lines and any room: an even length, which fits a room of at least 6 words; as many numbers as the stated limit allows, the first whatever the room; and the announced maximum kept if and only if the numbers, in pairs, do. |
| Devices.NumbersCutAt | ddaq_earth/src/daq_device_filenumbers.cc:128-137 | So many numbers fit the room with their padding, and one more would have fitted exactly if the room is even. |
| Devices.MoreNumbersThanAnnounced | ddaq_earth/src/daq_device_filenumbers.cc:165-169 | Three numbers and a device that announces 7 words: with room for 20 it puts 8. |

## Left out

- Sockets, the message queue, files, clocks, the electronic logbook, environment variables and plugins: sinks, parameters or choices of the environment.
- The older single-file acquisition program and the sink variants, foreign hardware readout, the command line tools, the web pages and status output.
- Two trigger loops at once, the end of a run during a readout, and daq_fake_trigger as a second source of triggers: disable_trigger only sleeps, and the model takes it to have its effect.
- PipelineTheorems.ReachableInv: is about guarded runs; of others the model shows how they go wrong, not what they keep.
- Runs.WholeRun: triggers of event type 32, whose size is looked up outside Eventsize; device lists that change during a run; and what follows a reopen that failed, which is in the pipeline model.
- Acquisition.Daq.DaqBegin: run numbers are positive; for others the buffer keeps its old run number.
- Acquisition.Daq.DaqEnd: a run that a failed begin or reopen has left half-started; what happens to its buffers is in the pipeline model, where the contents of a buffer are free.
- Acquisition.Daq.ReadEvent: takes the devices to deliver at most what they announce, and the buffers to be in ONCS format; PRDF is compiled out, its announced size lacks the frame header and its rollback undoes only the 8 words of the ONCS header.
- DaqBuffers.DaqBuffer.NextEvent: words are unbounded integers, the announced size covers at least the header, and the buffer does not have its end record yet.
- The thread that copes with shutdown and the end_thread flag, which nothing sets.
- OncsReader.OncsBuffer.GetEvent: byte swapping, unpacking of subevents and the merging of buffers are not modelled.
- Acquisition.Daq.DaqRestartNewFile: the readouts after a reopen that failed, whose events are numbered 0, 1, 2, ...; its contract says in what state they start.
- Devices.FileDevice.PutData: the PRDF branch. A read of a negative number of bytes is taken to fail.
- The random numbers themselves: the mask and rejection loop of rnd ends only with probability one.
- UriPath.NormalizeUriPath: input and output are the same buffer, as in its only call.
- JsonParser.ParseJson: a text that is absent or of negative length; parse_json2, which grows the array, and the JSON writer.
- JsonPath.FindJsonToken: array indices are unbounded integers.
- ChunkedBody.HttpConnection.HandleChunked: what a copy from outside the buffer does; the method stops there. The buffer itself is smaller than 2 to the 64 bytes.
- ChunkedBody.HttpConnection.Receive: one message per connection. The counter chunk.body_len is not reset by the code between two messages.
- Mbufs.Mbuf.Insert: memory is always available.
- Md5.Context.Final: clearing the context afterwards. Words are read from the block low byte first, as on a little-endian machine.
- Sha1.Context.Update: what the copy behind the buffer does when the 32-bit sum wraps; the method stops there.
- RandomMd5.Context.Update: lengths that an int can hold and that are not negative.
- WebSocket.Connection.Deliver: reassembly of fragmented frames, which the code marks as able to overwrite frame data; frames are whole or defragmentation is off.
- The WebSocket handshake, ping timer and vectored send; HTTP parsing, multipart, DAV, CGI, MQTT, CoAP, DNS, TLS and glob matching.
- HMAC, the printing variant of the Base64 encoder, and the hexadecimal digest strings.
