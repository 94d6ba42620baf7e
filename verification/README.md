# Verified models of golang.org/x/net cores

Dafny models of five parts of golang.org/x/net, with proofs of what each part promises. `dafny verify dfyconfig.toml`
checks everything; there are no axioms and no assumptions.

- **HTTP/2 outbound path** (`FlowControl`, `WriteSched`, `SchedRuns`, `RandomSched`, `PriorityTree`, `PriorityForest`,
  `PrioritySched`, `PriorityRuns`). Flow-control windows with 32-bit arithmetic, and the two write schedulers with theorems
  about all their runs.
- **HTTP/2 serve loop** (`ServerState`, `ServerSteps`, `ServerRuns`, `ServerMeaning`, `Server`). `Server.ServerConn` is an
  object whose events are chosen by the peer, the handlers and the scheduler; its invariant `Valid` holds before and after
  every event. `ServerSteps.Next` says what an event makes of the state of a connection, taken as a value; every event of
  the object is proved to do just that. `ServerMeaning` spells the events out field by field, and `ServerRuns` proves what
  holds over all runs.
- **HTTP/2 body buffering and frames** (`DataBuffer`, `Pipe`, `FrameCodec`, `Framer`, `FrameWire`, `HeaderBlock`). A chunked
  byte queue that behaves like a plain one, the pipe on top of it, the frame codec with the layout of every frame in
  numbers, and header blocks split over several frames.
- **Punycode** (`Punycode`, `PunycodeNumbers`). The decoder is specified over unbounded integers, the encoder by what the
  decoder makes of its output; `PunycodeNumbers` gives the numbers of RFC 3492 that digits, runs and biases stand for.
- **HTML tokenizer and escaping** (`HtmlScan`, `HtmlMarkup`, `HtmlTokenizer`, `Escape`, `EscapeMeaning`). `HtmlScan` says
  what each scanner reads from a plain byte stream; `HtmlTokenizer.Tokenizer` works on a buffer that is shifted and
  refilled, and every one of its methods is proved to do what the function of `HtmlScan` says, whatever the reader delivers
  at a time. `HtmlMarkup` and `EscapeMeaning` say what is read from written markup and references, byte by byte.
- **BPF** (`BpfAsm`, `BpfVm`, `BpfMeaning`). Assembler, disassembler, program checker and virtual machine, and what
  operations, tests, loads and raw forms mean in numbers.

`Common` holds shared value types.

## Results about the code

- `encode` of Punycode never fails for at most 1024 scalar values, and `decode` gives the text back exactly if it has at
  most 1024 scalar values or is all basic. A longer text with other code points may fail to encode; what it encodes to,
  `decode` refuses.
- Whatever the reader's chunks, the raw bytes of successive tokens partition the input; the tokens depend only on the bytes.
- `AdjustStream` keeps the priority tree a forest, although the exclusive loop may close a cycle in between. `removeNode`
  follows a link that it has just changed: it keeps the other nodes reachable exactly if the removed node has at most one
  kid. `StrandsStream` is a run that cuts a stream off this way: `Pop` then finds nothing, although its frame is queued.
- A node kept for an idle stream is evicted by age alone, also if its stream was opened since. `AdjustStream` drops the
  node of another stream exactly if it adds an idle node to a full list, and then that of the oldest entry.
  `EvictsOpenStream` is a run in which DATA on an open stream, and its close, panic for this reason.
- `flow.add` refuses a sum below -2^31 too; its documentation mentions only sums above 2^31-1.
- `checkFrameOrder` does not follow PUSH_PROMISE blocks: a promise is accepted exactly if its block fits one frame, and the
  first frame of a split promise is up to four bytes longer than a fragment may be.
- A program that `NewVM` accepts keeps its meaning when it is assembled and disassembled, provided that its ALU operations
  are exported ones and that its absolute loads are below 0xfffff000. Above that a load comes back as an extension, and the
  program is rejected, except for 0xfffff001: that load comes back as the length of the packet, and the program may then give another result.
- SETTINGS are read back as they were written unless the first SETTINGS_INITIAL_WINDOW_SIZE among them exceeds 2^31-1, which
  is written without error.
- Numeric character references are counted in 32 bits: `&#4294967361;` reads as the letter A. `&#x;` is U+FFFD, although it
  has no digit.
- A slash that ends an attribute value without quotes makes its tag self-closing.
- Once the server has begun a frame with END_STREAM, or has received RST_STREAM, it never begins another frame on that
  stream; after a connection error it begins nothing but GOAWAY and the acknowledgement of SETTINGS.
- `EscapeString` also escapes carriage returns; its documentation names five other characters only.

## Model

| member | source | states |
|---|---|---|
| Punycode.Madd | idna/punycode.go:173-179 | the overflow flag is set exactly if a + b*c exceeds 2^31-1; otherwise the sum is exact |
| Punycode.DecodeDigit | idna/punycode.go:181-191 | a digit below 36 exactly for ASCII letters and digits, so never for the delimiter |
| Punycode.EncodeDigit | idna/punycode.go:193-201 | the basic code point that decodes to the digit |
| Punycode.Adapt | idna/punycode.go:204-217 | the loop computes the bias of section 6.1 of RFC 3492 without leaving 32 bits |
| Punycode.AdaptedBounded | idna/punycode.go:204-217 | a bound on the bias for every delta, so that the digit weights of the decoder cannot overflow early |
| Punycode.ReadInteger | idna/punycode.go:54-81 | one variable-length integer: the sum of digits times weights, or an error exactly where a product, a sum or the input runs out |
| Punycode.InsertRune | idna/punycode.go:82-95 | the code point inserted and the decoder state after it, or an error for too many or too large code points |
| Punycode.Decode | idna/punycode.go:34-98 | the whole decoder equals its specification over unbounded integers, errors included |
| Punycode.ReadRunInvertsDigits | idna/punycode.go:146-160 | reading the digits that spell a number, at any bias and in any context, gives the number back |
| Punycode.WriteInteger | idna/punycode.go:146-160 | writes the digits that spell delta at the current bias |
| Punycode.SmallestFrom | idna/punycode.go:124-129 | the smallest code point that is at least n |
| Punycode.Scan | idna/punycode.go:135-165 | one pass over the text keeps encoder and decoder in step: decoding what was written so far gives the code points handled so far |
| Punycode.EncodingDecodes | idna/punycode.go:105-170 | the finished output decodes to the text if that has at most 1024 code points or is all basic, and is refused otherwise |
| Punycode.Encode | idna/punycode.go:105-170 | no overflow for at most 1024 scalar values or all-basic texts; the prefix is kept, then come the basic code points with their delimiter and then only digits in small letters; decode of the rest returns the text if it has at most 1024 scalar values or is all basic, and is an error otherwise |
| PunycodeNumbers.DigitsMean | idna/punycode.go:181-201 | a to z are 0 to 25 in both cases and 0 to 9 are 26 to 35; digits are written in small letters |
| PunycodeNumbers.ReadDigitsMeans | idna/punycode.go:54-81 | a run of digits ends at the first that is below its threshold: 1, 26 or 36 times the place minus the bias |
| PunycodeNumbers.RunMeans | idna/punycode.go:54-81 | an integer is read exactly if the characters are a run and its weights and sum fit 31 bits; it is the sum of digits times weights, each weight the last one times 36 less the threshold before |
| PunycodeNumbers.AdaptMeans | idna/punycode.go:204-217 | the bias is the one of section 6.1 of RFC 3492: delta over 700 or 2, plus its quotient by the number of points, divided by 35 until it is at most 455 |
| PunycodeNumbers.InsertMeans | idna/punycode.go:82-95 | the total divided by one more than the length: the quotient is added to the code point, the remainder is the place |
| PunycodeNumbers.StartMeans | idna/punycode.go:34-53 | what stands before the last delimiter is taken over; decoding starts behind it, at 128 with bias 72 |
| PunycodeNumbers.FirstRuns | idna/punycode.go:54-81 | at bias 72 the thresholds are 1, 1 and then 26, and the weights 1, 35, 1225 and then ten times more each |
| PunycodeNumbers.OneCodePoint | idna/punycode.go:34-98 | digits alone decode to one code point n exactly if they are a first run that stands for n - 128 |
| PunycodeNumbers.EncodeOne | idna/punycode.go:105-170 | one code point that is not basic is encoded as the first run that stands for it less 128 |
| FlowControl.WindowAfter | http2/flow.go:45-52 | the test on wrapped sums accepts exactly the sums that 32 bits hold |
| FlowControl.Flow.Available | http2/flow.go:25-31 | the smaller of the two windows |
| FlowControl.Flow.Take | http2/flow.go:33-42 | debits the stream and the connection by the same amount; taking more than is available is excluded by the precondition that every caller proves |
| FlowControl.Flow.Add | http2/flow.go:45-52 | succeeds exactly if the sum fits 32 bits, and leaves the window alone otherwise |
| WriteSched.Consume | http2/writesched.go:106-158 | nothing exactly if flow control blocks the frame; otherwise all of it or a leading part within the windows, the limit and the frame size, both windows debited by what was taken |
| WriteSched.AtomsSplit | http2/writesched.go:126-151 | the two parts carry the frame's bytes in order, with END_STREAM and the reply only after the last byte |
| WriteSched.WriteQueue.Push | http2/writesched.go:192-194 | appends |
| WriteSched.WriteQueue.Shift | http2/writesched.go:196-206 | removes the head of a non-empty queue |
| WriteSched.WriteQueue.ConsumeHead | http2/writesched.go:212-226 | what is returned followed by what stays is what was queued; refuses exactly if the queue is empty or its head is blocked |
| SchedRuns.ConservesNext | http2/writesched.go:183-227 | a step that appends to a queue, takes from its head or empties it keeps: pushed since the last close is popped since, followed by queued |
| SchedRuns.StepLawful | http2/writesched.go:106-158 | a DATA frame taken within the limits of the moment fitted the frame size and windows that the history gives; a grant was accepted exactly if the sum fitted 32 bits |
| SchedRuns.StuckStalled | http2/writesched.go:212-226 | a queue that gives nothing is empty, or something pushed on it is on a stream with a window or a frame size that lets nothing through, as the history gives them |
| RandomSched.RandomWriteScheduler.Push | http2/writesched_random.go:47-59 | the request is appended to the queue of its stream, or to the control queue |
| RandomSched.RandomWriteScheduler.Pop | http2/writesched_random.go:61-77 | control frames first and in order; false only if no control frame is queued and every stream is blocked; one queue loses what is returned from its head, the windows lose its size, no window goes negative, no DATA frame exceeds the frame size |
| RandomSched.RandomWriteScheduler.CloseStream | http2/writesched_random.go:34-41 | discards what is queued for the stream and nothing else; a stream with nothing queued is no error |
| RandomSched.RandomWriteScheduler.Acquire | http2/writesched.go:240-250 | a queue from the pool, or a new one, is empty and shared with no stream |
| RandomSched.RandomWriteScheduler.Release | http2/writesched.go:231-237 | an emptied queue leaves the table and enters the pool, which holds no live queue |
| RandomSched.Do | http2/writesched_random.go:34-77 | one call of a scheduler, or a change of a window or a frame size: what it does to every queue, window and frame size; a pop finds nothing only if nothing can be written, and a grant is refused only if the sum leaves 32 bits |
| RandomSched.Drive | http2/writesched_random.go:16-77 | over every run of Push, Pop and CloseStream on a new scheduler, with windows and frame sizes changing in between: for every queue, what was pushed since its last close is what was popped since, followed by what is queued, in order; at no earlier time was more popped than pushed; every DATA frame popped fitted the frame size and the windows of its time; a pop found nothing only while every queue was empty or held by a window or frame size that lets nothing through; every window is its start plus grants minus bytes popped, a grant being refused exactly if the sum leaves 32 bits. The history holds only the calls and their results |
| PriorityTree.SetParent | http2/writesched_priority.go:109-142 | the node moves to the head of the new parent's kids; all links stay consistent, and no other node changes parent |
| PriorityTree.Detach | http2/writesched_priority.go:116-133 | what unlinking does to every link of every node |
| PriorityTree.Attach | http2/writesched_priority.go:130-141 | what linking at the head does to every link of every node |
| PriorityForest.AdjustedIsForest | http2/writesched_priority.go:352-381 | however a node is moved, there is no cycle afterwards |
| PriorityForest.AdjustedParents | http2/writesched_priority.go:352-381 | the node ends up a kid of its dependency, with the exclusive flag the only one; the dependency moves up exactly if it was below the node; nobody else moves (section 5.3.3 of RFC 7540) |
| PriorityForest.RemovalKeepsReachable | http2/writesched_priority.go:445-451 | removing a node keeps all others reachable exactly if it has no kid but the first |
| PrioritySched.MoveUp | http2/writesched_priority.go:359-364 | the walk to the root moves the dependency exactly if it depends on the node |
| PrioritySched.AdoptKids | http2/writesched_priority.go:369-378 | every kid of the dependency but the node itself becomes a kid of the node |
| PrioritySched.DependOn | http2/writesched_priority.go:352-381 | the three relinking steps together give the specified forest, with consistent links |
| PrioritySched.ReleaseKids | http2/writesched_priority.go:446-448 | the loop moves only the first kid to the parent; the others stay where they were |
| PrioritySched.AddBytes | http2/writesched_priority.go:144-149 | adds to the node, and to the sums of exactly the node and the nodes above it |
| PrioritySched.PriorityWriteScheduler.constructor | http2/writesched_priority.go:58-83 | a tree of the root alone, empty lists and the limits of the configuration |
| PrioritySched.PriorityWriteScheduler.OpenStream | http2/writesched_priority.go:257-286 | the exact case of the panic, which changes nothing; an idle node opens where it is; a new one depends on its pusher or on the root; table, lists and highest ID afterwards; queues, weights and bytes stay |
| PrioritySched.PriorityWriteScheduler.CloseStream | http2/writesched_priority.go:288-311 | the exact case of the panic, which changes nothing; the queue and the bytes of the stream are dropped, others keep theirs; parents, table and list of closed nodes afterwards: a node is dropped exactly if it is the stream's own and none are kept, or the oldest of a full list |
| PrioritySched.PriorityWriteScheduler.AdjustStream | http2/writesched_priority.go:313-382 | the exact case of the panic; for a node in the tree the forest of section 5.3.3 of RFC 7540, with the same nodes and queues; for an unknown stream nothing, or an idle node placed in the tree; another node is dropped exactly if the stream is unknown and above the highest ID and the node is the oldest of a full list of idle nodes |
| PrioritySched.PriorityWriteScheduler.AdjustIdle | http2/writesched_priority.go:320-382 | the new idle node: table, list, weight and the parents of all nodes once it depends on its stream, with the oldest idle node gone if the list was full |
| PrioritySched.PriorityWriteScheduler.Retire | http2/writesched_priority.go:306-310 | the node of a closed stream is kept at the end of the list, at the cost of the oldest of a full one, or removed if none are kept |
| PrioritySched.PriorityWriteScheduler.AdjustNode | http2/writesched_priority.go:338-382 | parents and weight after the change, for each of its cases |
| PrioritySched.PriorityWriteScheduler.Retain | http2/writesched_priority.go:431-443 | the list keeps its limit; the oldest node is removed exactly if it was full |
| PrioritySched.PriorityWriteScheduler.RemoveNode | http2/writesched_priority.go:445-451 | parents after the removal, and the table without the node |
| PrioritySched.PriorityWriteScheduler.Push | http2/writesched_priority.go:384-402 | panics exactly for DATA on a stream with no node, and then changes nothing; otherwise the request is appended to one queue: its stream's, or the root's for control frames and unknown streams |
| PrioritySched.PriorityWriteScheduler.SortKids | http2/writesched_priority.go:171-201 | detaching, sorting and reattaching keeps every parent and all links consistent |
| PrioritySched.PriorityWriteScheduler.Walk | http2/writesched_priority.go:157-208 | finds a node below the start with something to give, and whether it is below an open stream, every node on the way to it being stuck and, among kids of equal weight, all that were visited before; or every node below the start has nothing |
| PrioritySched.PriorityWriteScheduler.Charge | http2/writesched_priority.go:414-425 | books the bytes; the limit on out-of-order writes stays positive under wrap-around |
| PrioritySched.PriorityWriteScheduler.Pop | http2/writesched_priority.go:404-429 | false exactly if every queue reachable from the root is empty or blocked; otherwise takes from exactly one such queue, which is due: all nodes above it are stuck, and with kids of equal weight all that come before it and are below those have nothing to give, so control frames come first; in order, within all limits, and below an open stream within the limit on out-of-order writes; that limit and the bytes of the node follow; every node keeps its parent, state and weight |
| PrioritySched.EvictsOpenStream | http2/writesched_priority.go:313-443 | with room for one idle node: a change of priority on a stream that is then opened, and one on a higher stream, leave the first without a node; DATA on it and its close panic |
| PrioritySched.StrandsStream | http2/writesched_priority.go:288-311 | with no room for closed nodes: closing a stream that pushed two others leaves the first of them out of reach of the root; a frame is pushed there, and the next Pop finds nothing |
| PriorityRuns.Do | http2/writesched_priority.go:257-429 | one call of a scheduler, or a change of a window or a frame size: what it does to the queue of every node, to every window and frame size; when a push or a close panics; a pop takes from a node that is due, and from another than the root only if the root is idle; it finds nothing only if no queue reachable from the root can be written from |
| PriorityRuns.ConservedNext | http2/writesched_priority.go:257-429 | a step that moves one queue, and leaves those of new nodes empty, keeps all nodes conserved |
| PriorityRuns.Drive | http2/writesched_priority.go:55-429 | over every run of all five calls on a new scheduler with any limits, with windows and frame sizes changing in between: for every node there ever was, what was pushed there since its stream closed is what was popped from it, followed by what is queued, in order, and never was more popped; frames at a node other than the root are of its stream; a frame is popped from another node than the root only when all that was pushed at the root is popped; every DATA frame popped fitted the frame size and the windows of its time; every window is its start plus grants minus bytes popped |
| DataBuffer.ChunkPool.Get | http2/databuffer.go:40-48 | a chunk of the smallest class that holds the size, or of the largest; it is no longer in the pool |
| DataBuffer.ChunkPool.Put | http2/databuffer.go:50-58 | fails exactly if the length is not a size class |
| DataBuffer.Buffer.Read | http2/databuffer.go:77-100 | returns the oldest bytes and keeps the others in order; an error exactly if the buffer is empty; every chunk given back has a size class |
| DataBuffer.Buffer.ReadChunk | http2/databuffer.go:82-98 | every turn of the loop moves at least one byte |
| DataBuffer.Buffer.BytesFromFirstChunk | http2/databuffer.go:102-107 | a non-empty prefix of the contents |
| DataBuffer.Buffer.Write | http2/databuffer.go:115-133 | the contents grow by exactly p; no chunk in use is in the pool or used twice |
| DataBuffer.Buffer.Fill | http2/databuffer.go:126-130 | every turn of the loop appends at least one byte |
| DataBuffer.Buffer.LastChunkOrAlloc | http2/databuffer.go:135-146 | the last chunk has room, and the contents are unchanged |
| DataBuffer.Buffer.Len | http2/databuffer.go:110-112 | the length of the contents |
| Pipe.Pipe.SetBuffer | http2/pipe.go:35-42 | no effect on a closed or broken pipe |
| Pipe.Pipe.Len | http2/pipe.go:44-51 | the buffered bytes, or those left unread when done |
| Pipe.Pipe.Read | http2/pipe.go:55-78 | data, error, code run and new state of a Read that need not wait |
| Pipe.Pipe.Write | http2/pipe.go:84-99 | refused exactly if closed; discarded but counted if broken; otherwise appended |
| Pipe.Pipe.CloseWithErrorAndCode | http2/pipe.go:106-140 | the first error and its code stay; buffered bytes are untouched |
| Pipe.Pipe.BreakWithError | http2/pipe.go:111-140 | the buffer is dropped and counted as unread |
| Pipe.Pipe.Err | http2/pipe.go:157-164 | an error exactly if closed or broken, the breaking one first |
| Pipe.RunKeeps | http2/pipe.go:35-140 | over every interleaving, bytes read are a prefix of bytes accepted, and Len counts the rest |
| Pipe.NewPipeKeeps | http2/pipe.go:35-140 | the same for every run of a new pipe |
| Pipe.CloseDeliversAll | http2/pipe.go:61-75 | a Read of an unbroken pipe reports the closing error exactly if every accepted byte was read |
| Pipe.BreakGivesNothing | http2/pipe.go:62-64 | after a break no Read returns data, whatever is done next |
| Pipe.FirstErrorStays | http2/pipe.go:91-93 | after a close the error stays and nothing more is accepted |
| Pipe.SecondBufferLoses | http2/pipe.go:35-42 | setting another buffer loses bytes exactly if the pipe is open and holds some |
| FrameCodec.HeaderBack | http2/frame.go:236-248 | a frame header reads back, without the reserved bit of the stream ID |
| FrameCodec.WireBack | http2/frame.go:342-376 | a reader with a sufficient limit parses the header and payload that were written, whatever follows |
| FrameCodec.Parse | http2/frame.go:597-1323 | a parsed frame keeps its header; its kind follows its type for all ten types, and only other types are unknown frames; frames of a stream have one, and SETTINGS, PING and GOAWAY have none |
| Framer.PadBack | http2/frame.go:610-627 | the parser takes off exactly the padding that the writer put on |
| Framer.DataRoundTrip | http2/frame.go:597-695 | DATA reads back with its fields, without padding |
| Framer.HeadersRoundTrip | http2/frame.go:1011-1123 | HEADERS read back with fragment, flags and priority, without padding |
| Framer.PriorityRoundTrip | http2/frame.go:1153-1193 | PRIORITY reads back, exclusive bit and weight included |
| Framer.RSTStreamRoundTrip | http2/frame.go:1202-1225 | RST_STREAM reads back |
| Framer.SettingsRoundTrip | http2/frame.go:707-826 | SETTINGS read back in order, or give FLOW_CONTROL_ERROR exactly if the first initial window size exceeds 2^31-1 |
| Framer.SettingsAckRoundTrip | http2/frame.go:832-835 | a SETTINGS acknowledgement reads back |
| Framer.PushPromiseRoundTrip | http2/frame.go:1285-1376 | PUSH_PROMISE reads back with promised ID and fragment, without padding |
| Framer.PingRoundTrip | http2/frame.go:848-870 | PING reads back |
| Framer.GoAwayRoundTrip | http2/frame.go:890-913 | GOAWAY reads back with its debug data; the high bit of the last stream ID is dropped |
| Framer.WindowUpdateRoundTrip | http2/frame.go:943-981 | WINDOW_UPDATE with a legal increment reads back |
| Framer.ContinuationRoundTrip | http2/frame.go:1234-1266 | CONTINUATION reads back |
| FrameWire.NumbersRead | http2/frame.go:236-248 | numbers of two, three and four bytes are read most significant byte first |
| FrameWire.NumbersWritten | http2/frame.go:396-401 | numbers are written most significant byte first |
| FrameWire.FlagsMean | http2/frame.go:71-92 | END_STREAM and ACK are 1, END_HEADERS 4, PADDED 8 and PRIORITY 32, alone and together |
| FrameWire.TypesMean | http2/frame.go:29-145 | types 0 to 9 are parsed as the ten kinds of frame |
| FrameWire.HeaderOnWire | http2/frame.go:342-376 | a frame is three bytes of length, one of type, one of flags, four of stream ID, and the payload |
| FrameWire.HeaderRead | http2/frame.go:236-248 | length, type, flags and the low 31 bits of the stream ID are read back from those places |
| FrameWire.DataOnWire | http2/frame.go:664-695 | type 0; with padding the payload starts with its length and ends with it |
| FrameWire.HeadersOnWire | http2/frame.go:1088-1123 | type 1; padding, then five bytes of priority if there is one, then the fragment |
| FrameWire.PriorityOnWire | http2/frame.go:1178-1193 | type 2; the dependency with the exclusive bit as 2^31, and the weight |
| FrameWire.NumberOnWire | http2/frame.go:1218-1225 | types 3 and 8; RST_STREAM and WINDOW_UPDATE hold one number of four bytes |
| FrameWire.SettingsOnWire | http2/frame.go:819-826 | the i-th setting is the six bytes from 6*i on: two of its number, four of its value |
| FrameWire.SettingsFrameOnWire | http2/frame.go:819-826 | type 4 on stream 0, six bytes for each setting |
| FrameWire.PushPromiseOnWire | http2/frame.go:1354-1376 | type 5; padding, the promised ID in four bytes, then the fragment |
| FrameWire.PingOnWire | http2/frame.go:862-870 | type 6; eight bytes of data, flag 1 for an answer |
| FrameWire.GoAwayOnWire | http2/frame.go:907-913 | type 7; the low 31 bits of the last stream ID, the code, and the debug data |
| FrameWire.ContinuationOnWire | http2/frame.go:1255-1266 | type 9; flag 4 on the last, and the fragment |
| FrameWire.ParseAccepts | http2/frame.go:597-1323 | exactly which stream IDs, lengths, paddings and contents each type is accepted with |
| FrameWire.ParseRefuses | http2/frame.go:597-1323 | a wrong stream ID is error 1 and a wrong size error 6 |
| Framer.Framer.EndWrite | http2/frame.go:356-376 | the length is filled in and the frame written, or nothing is written exactly if it is 2^24 bytes or longer |
| Framer.Framer.WriteDataPadded | http2/frame.go:664-695 | which arguments are refused with which error, and the bytes written otherwise |
| Framer.Framer.WriteHeaders | http2/frame.go:1088-1123 | which arguments are refused with which error, and the bytes written otherwise |
| Framer.Framer.WritePriority | http2/frame.go:1178-1193 | which arguments are refused with which error, and the bytes written otherwise |
| Framer.Framer.WriteRSTStream | http2/frame.go:1218-1225 | which arguments are refused with which error, and the bytes written otherwise |
| Framer.Framer.WriteSettings | http2/frame.go:819-826 | the loop writes the settings in order |
| Framer.Framer.WriteSettingsAck | http2/frame.go:832-835 | the bytes written |
| Framer.Framer.WritePushPromise | http2/frame.go:1354-1376 | which arguments are refused with which error, and the bytes written otherwise |
| Framer.Framer.WritePing | http2/frame.go:862-870 | the bytes written |
| Framer.Framer.WriteGoAway | http2/frame.go:907-913 | the bytes written, or nothing if the frame is too large |
| Framer.Framer.WriteWindowUpdate | http2/frame.go:973-981 | refused exactly if the increment is not between 1 and 2^31-1 |
| Framer.Framer.WriteContinuation | http2/frame.go:1255-1266 | which arguments are refused with which error, and the bytes written otherwise |
| Framer.Framer.CheckFrameOrder | http2/frame.go:540-574 | accepts as specified, and remembers the stream of an open header block |
| Framer.Framer.ReadFrame | http2/frame.go:493-526 | the parsed frame and the rest of the stream, or the error of the parser or of the order check |
| Framer.AcceptsContiguous | http2/frame.go:540-574 | a run of frames is accepted exactly if every open header block is followed at once by CONTINUATION on its stream, and CONTINUATION comes nowhere else |
| HeaderBlock.FragmentsJoin | http2/write.go:153-175 | the fragments are the block, each non-empty and at most 16384 bytes |
| HeaderBlock.ResponseFramesShape | http2/write.go:237-248 | HEADERS first, then CONTINUATION on the same stream, END_HEADERS only on the last |
| HeaderBlock.ResponseAccepted | http2/write.go:237-248 | the order check accepts the frames of every non-empty block |
| HeaderBlock.WriteHeaderBlock | http2/write.go:153-175 | the loop writes exactly those frames, or nothing for an illegal stream ID |
| HeaderBlock.ReadMetaFrame | http2/frame.go:1568-1583 | the loop collects the whole block; the frame after an open block is always a CONTINUATION |
| HeaderBlock.BlockRoundTrip | http2/write.go:153-175 | every non-empty block that is split and written is read back whole, whatever follows it |
| HeaderBlock.PushAccepted | http2/write.go:286-297 | the frames of a promise pass the order check exactly if its block fits one fragment |
| HeaderBlock.PushLength | http2/write.go:286-297 | the first frame of a promise is within 16384 bytes exactly if the block has at most 16380 |
| HtmlTokenizer.Tokenizer.ReadAtLeastOneByte | html/token.go:297-304 | at least one byte of what the reader delivers, or its error, a hundred empty reads being one |
| HtmlTokenizer.Tokenizer.Shift | html/token.go:245-269 | moving the live bytes to the front leaves every span where it was in the stream, and makes room |
| HtmlTokenizer.Tokenizer.ReadByte | html/token.go:234-287 | the next byte of the stream or its end, whatever is buffered; nothing else changes |
| HtmlTokenizer.Tokenizer.SkipWhiteSpace | html/token.go:307-324 | stops at the first byte that is not white space |
| HtmlTokenizer.Tokenizer.ReadRawOrRCDATA | html/token.go:328-360 | raw text ends before its end tag or with the stream |
| HtmlTokenizer.Tokenizer.ReadRawText | html/token.go:335-355 | stops before the first matching end tag, with all its back-ups |
| HtmlTokenizer.Tokenizer.ReadRawEndTag | html/token.go:366-389 | finds the tag exactly if it stands there with a byte that ends a name, and then gives all of it back |
| HtmlTokenizer.Tokenizer.ReadScript | html/token.go:393-596 | the fifteen states stop where the specified automaton stops |
| HtmlTokenizer.Tokenizer.ReadComment | html/token.go:600-646 | position and data of a comment, dashes at the end and empty comments included |
| HtmlTokenizer.Tokenizer.ReadUntilCloseAngle | html/token.go:649-662 | stops after the first closing angle |
| HtmlTokenizer.Tokenizer.ReadMarkupDeclaration | html/token.go:667-692 | type, position and data of what follows "<!" |
| HtmlTokenizer.Tokenizer.ReadDoctype | html/token.go:696-717 | reads a doctype exactly if its keyword stands there, and otherwise goes back |
| HtmlTokenizer.Tokenizer.ReadCDATA | html/token.go:721-756 | reads a CDATA section exactly if its opening stands there, and otherwise goes back |
| HtmlTokenizer.Tokenizer.StartTagIn | html/token.go:760-778 | whether the tag name, lower-cased, is one of the names |
| HtmlTokenizer.Tokenizer.ReadStartTag | html/token.go:782-814 | type, attributes and raw-text mode after a start tag |
| HtmlTokenizer.Tokenizer.ReadTag | html/token.go:820-844 | name and attributes up to the closing angle |
| HtmlTokenizer.Tokenizer.ReadTagName | html/token.go:849-867 | the name ends at the first byte that ends one |
| HtmlTokenizer.Tokenizer.ReadTagAttrKey | html/token.go:871-889 | the key ends at the first byte that ends one |
| HtmlTokenizer.Tokenizer.ReadTagAttrVal | html/token.go:892-951 | the value, quoted or not, or an empty one |
| HtmlTokenizer.Tokenizer.Next | html/token.go:954-1070 | the next token of the stream, as HtmlScan.NextToken defines it |
| HtmlTokenizer.Tokenizer.Raw | html/token.go:1079-1081 | the bytes of the stream from the start to the end of the token |
| HtmlTokenizer.Tokenizer.constructor | html/token.go:1216-1229 | a tokenizer at the start of what its reader delivers, in raw text for a raw context tag |
| HtmlTokenizer.Tokenizer.AllowCDATA | html/token.go:188-190 | only the CDATA mode changes |
| HtmlTokenizer.Tokenizer.NextIsNotRawText | html/token.go:216-218 | only the raw-text mode ends |
| HtmlTokenizer.Rechunked | html/token.go:297-304 | cutting a response of the reader in two changes nothing that is delivered |
| HtmlTokenizer.Tokenize | html/token.go:954-1081 | the raw bytes of the tokens that NextToken gives up to the first error, each non-empty; with those of the error token they are all that the reader delivers |
| HtmlScan.NextToken | html/token.go:954-1070 | a token starts where the last one ended, holds its data, and is non-empty unless it is an error at the end of the stream |
| HtmlMarkup.StartTagMeans | html/token.go:782-951 | an angle, a name, any list of attributes written with double, single or no quotes, and an angle: one start tag with exactly these bytes as name, keys and values, in order; self-closing exactly if a slash stands before the last angle; raw text follows exactly for the ten raw elements, in any case of letters |
| HtmlMarkup.ListMeans | html/token.go:820-951 | a written list of attributes is read back as their spans |
| HtmlMarkup.ValueMeans | html/token.go:892-951 | a value in double, single or no quotes is the bytes between, and where reading goes on |
| HtmlMarkup.EndTagMeans | html/token.go:1027-1051 | an angle, a slash, a name and an angle: one end tag with that name and no attributes |
| HtmlMarkup.CommentMeans | html/token.go:600-692 | a text without two dashes between the marks of a comment is the data of one comment |
| HtmlMarkup.DoctypeMeans | html/token.go:696-717 | the keyword in any case of letters; the data starts after the white space and ends at the first angle |
| HtmlMarkup.BogusMeans | html/token.go:1027-1060 | processing instructions, and end tags whose name does not start with a letter, are comments up to the first angle |
| HtmlMarkup.CDataMeans | html/token.go:721-756 | where CDATA is allowed, a text without its end mark is the data of one text |
| HtmlMarkup.TextMeans | html/token.go:986-1068 | text ends before the first angle that a letter, a slash, an exclamation mark or a question mark follows, or with the stream |
| HtmlMarkup.RawMeans | html/token.go:328-389 | after a raw element's start tag, text runs to the first end tag of that element, in any case of letters and with white space, a slash or an angle behind; also in a script without "<!" |
| HtmlMarkup.PlaintextMeans | html/token.go:962-975 | the content of plaintext runs to the end of the stream |
| HtmlScan.NoGaps | html/token.go:1072-1081 | in every run each token starts where the one before ended |
| HtmlScan.Partition | html/token.go:1072-1081 | in every run the raw bytes of the tokens are the bytes of the stream from its start to its end |
| HtmlScan.Ends | html/token.go:954-1070 | one more call than there are bytes meets an error token |
| HtmlScan.ErrorStays | html/token.go:954-961 | after the error only empty error tokens follow |
| HtmlScan.TagAttrsInside | html/token.go:820-951 | attributes have names and lie in order inside their tag, after its name |
| HtmlScan.ScriptNext | html/token.go:399-595 | every block of the script scanner consumes a byte or moves to a state that will |
| Escape.RoundTrip | html/escape.go:233-236 | unescaping undoes escaping for every byte string, in text and in attribute values |
| Escape.EscapeReads | html/escape.go:204-222 | each escape reads back as its byte, whatever follows |
| Escape.NotWider | html/escape.go:57-163 | what stands for a reference is never longer than the reference |
| Escape.UnescapeEntity | html/escape.go:57-163 | writes what stands for the reference behind what is done; dst stays at or behind src, and no unread byte changes |
| Escape.ReadNumber | html/escape.go:81-104 | the number with 32-bit wrap-around, and where it ends |
| Escape.ReadName | html/escape.go:125-136 | where a reference name ends |
| Escape.FindPrefix | html/escape.go:149-157 | the longest known prefix |
| Escape.Unescape | html/escape.go:167-184 | the in-place rewrite leaves exactly the out-of-place result |
| Escape.WriteEscaped | html/escape.go:198-231 | the loop escapes every byte that needs it and copies the others |
| Escape.EscapeString | html/escape.go:237-244 | the escaped text, which unescapes to the original |
| Escape.UnescapeString | html/escape.go:251-258 | the unescaped text |
| EscapeMeaning.Utf8Means | html/escape.go:118 | one to four bytes as section 3 of RFC 3629 has them, six bits in each but the first |
| EscapeMeaning.ScanNumberMeans | html/escape.go:79-104 | the number that the digits spell in base ten or sixteen, modulo 2^32 |
| EscapeMeaning.NumericMeans | html/escape.go:67-119 | a reference by any digits, decimal or hexadecimal, with its semicolon or without, is the code point of that number modulo 2^32, mended for zero, surrogates, numbers out of range and the 32 of Windows-1252 |
| EscapeMeaning.NamedMeans | html/escape.go:125-146 | a known name stands for its one or two characters, except before an equals sign in an attribute |
| EscapeMeaning.PrefixMeans | html/escape.go:147-157 | in text the longest known prefix of two to six bytes stands for its character, and the rest stays |
| EscapeMeaning.OthersStay | html/escape.go:167-184 | any other byte stays, and so does an ampersand that starts no reference |
| BpfVm.NewVM | bpf/vm.go:18-80 | a machine exactly if the checks pass, an error exactly if they fail or the program does not assemble |
| BpfVm.AssembleAll | bpf/asm.go:14-24 | the raw form of every instruction, or none exactly if one has no raw form |
| BpfVm.VM.Run | bpf/vm.go:85-150 | the loop returns what the specified run returns |
| BpfMeaning.ArithmeticMeans | bpf/vm_instructions.go:29-56 | sums, differences and products modulo 2^32; quotients and remainders for a divisor that is not zero |
| BpfMeaning.BitsMean | bpf/vm_instructions.go:29-56 | every bit of and, or and xor |
| BpfMeaning.ShiftsMean | bpf/vm_instructions.go:29-56 | a shift multiplies or divides by a power of two, and by 32 or more gives zero |
| BpfMeaning.TestsMean | bpf/vm_instructions.go:66-93 | the eight tests as comparisons of numbers; bits are set exactly if the two have one in common |
| BpfMeaning.BytesMean | bpf/vm_instructions.go:141-160 | one, two and four bytes as numbers, most significant first |
| BpfMeaning.LoadsMean | bpf/vm_instructions.go:95-139 | what each load leaves in which register, and that it ends the run exactly if the packet is too short |
| BpfMeaning.RegistersMean | bpf/vm_instructions.go:102-111 | constants, scratch words and moves between the registers |
| BpfMeaning.StoredIsLoaded | bpf/vm_instructions.go:162-182 | a stored word is read back; the others stay |
| BpfMeaning.OperationsMean | bpf/vm_instructions.go:12-64 | operations and jumps with a constant and with X |
| BpfMeaning.Calculate | bpf/vm.go:85-150 | the program that loads a number, combines it with another and returns it gives the number that arithmetic gives |
| BpfMeaning.Classify | bpf/vm.go:85-150 | the program that compares bytes of the packet with a number gives the one answer or the other, or zero if the packet is too short |
| BpfMeaning.RawLoads | bpf/instructions.go:191-302 | the raw form of every load and store in numbers |
| BpfMeaning.RawExtensions | bpf/instructions.go:315-321 | the length has a code of its own; the other extensions are loads at 0xfffff000 and above |
| BpfMeaning.RawOperations | bpf/instructions.go:408-492 | the raw form of every operation in numbers |
| BpfMeaning.RawJumps | bpf/instructions.go:504-589 | four tests have a code; the other four are those with the skips exchanged |
| BpfMeaning.RawReturns | bpf/instructions.go:640-693 | the raw form of returns and moves in numbers |
| BpfMeaning.RawBack | bpf/instructions.go:33-182 | every raw form is read back as its instruction, or as the same jump turned round |
| BpfVm.TraceInside | bpf/vm.go:106-147 | a run visits increasing indices inside the program, so at most as many as it has |
| BpfVm.AcceptedRuns | bpf/vm.go:18-150 | no accepted program divides by zero, indexes out of range, panics or runs off its end, on any packet |
| BpfVm.TraceEnds | bpf/vm.go:106-149 | a run returns a value exactly if its last instruction is a return |
| BpfVm.ReassembledSame | bpf/instructions.go:33-182 | an instruction survives assembling and disassembling, perhaps as the opposite jump with its skips exchanged, exactly if it is representable |
| BpfVm.JumpBack | bpf/instructions.go:554-589 | the raw form of a conditional jump, read back, is the same jump |
| BpfVm.NegationHolds | bpf/vm_instructions.go:66-93 | the opposite test holds exactly if the test does not |
| BpfVm.MeaningPreserved | bpf/vm.go:18-150 | an accepted plain program is accepted again after reassembly and gives the same result on every packet |
| BpfVm.ReassembledAccepted | bpf/instructions.go:59-63 | exactly when an accepted program is accepted again, whatever its absolute loads |
| BpfVm.LengthOffsetChangesMeaning | bpf/instructions.go:59-63 | programs accepted on both sides that give different results |
| Server.ServerConn.Handle | http2/server.go:896-952 | every event makes of the state exactly what ServerSteps.Next says and keeps the invariant; exactly the streams that leave the table become closed, and none of them is live; only unused IDs become live; only a WINDOW_UPDATE is logged as a grant, only a DATA frame begun as sent, and nothing is sent while the connection is failing |
| Server.ServerConn.HandlePeer | http2/server.go:1451-1487 | the same for every frame from the peer, as ServerSteps.PeerDone says; it begins no frame |
| Server.Serve | http2/server.go:848-971 | over every run, whose states are the history: each state follows from the one before by its event as ServerSteps.Next says; a stream that was live and is not so any more is never live again; no frame is begun on a stream after one with END_STREAM or after RST_STREAM for it; after an error only GOAWAY and the acknowledgement of SETTINGS are begun; streams open in the order of their IDs, never more of the client's than allowed; at no time do the DATA frames begun hold more bytes than 65535 plus the WINDOW_UPDATE frames received for the connection |
| ServerRuns.NextKeeps | http2/server.go:896-952 | any event keeps every stream but those it may end, which are then gone or ended on this side; only unused IDs open; an error is not taken back; only the scheduling loop begins a frame |
| ServerRuns.EndIsLast | http2/server.go:1230-1282 | in every run, after a frame with END_STREAM is begun no frame is ever begun on its stream |
| ServerRuns.ResetIsFinal | http2/server.go:1543-1560 | in every run, after RST_STREAM from the peer no frame is ever begun on its stream, idle streams included |
| ServerRuns.FailureIsFinal | http2/server.go:1369-1381 | in every run, an error stays the error, and nothing is begun after it but GOAWAY and the acknowledgement of SETTINGS |
| ServerRuns.StreamsRise | http2/server.go:1901-1914 | in every run, a stream that opens has a higher ID than all of its side that were ever live |
| ServerMeaning.HeadersRefused | http2/server.go:1847-1914 | HEADERS change nothing in a shutdown; on an even stream or a closed one they are error 1 |
| ServerMeaning.TrailersMean | http2/server.go:1867-2010 | HEADERS on a live stream: nothing if it is being reset, a reset, or the end of its body, which is end of file exactly if it is whole |
| ServerMeaning.RequestMeans | http2/server.go:1901-1960 | HEADERS on a new stream: refused exactly if as many streams are live as allowed, else the entry and the body it opens with |
| ServerMeaning.DataMeans | http2/server.go:1728-1793 | DATA on a stream that receives: refused if more than declared, reset if beyond its window, else counted, with the refund for padding and the end |
| ServerMeaning.DataDropped | http2/server.go:1686-1727 | DATA on any other stream: ignored, an error, or answered with a reset |
| ServerMeaning.UpdateMeans | http2/server.go:1511-1541 | a window takes an update exactly if it stays within 2^31-1; else a reset, or error 3; on an idle stream error 1 |
| ServerMeaning.ResetMeans | http2/server.go:1543-1560 | RST_STREAM takes its stream, its queue and the end of its body; on an idle stream error 1; on a closed one nothing |
| ServerMeaning.PingMeans | http2/server.go:1489-1509 | one answer, unless it is one or the connection is failing; GOAWAY begins a shutdown and stops pushes |
| ServerMeaning.SettingsMean | http2/server.go:1597-1684 | settings that can all be taken: each value in force, every window moved by the change of the initial size, an acknowledgement due |
| ServerMeaning.SettingsRefusedMeans | http2/server.go:1597-1684 | more than a hundred, duplicates, or one that cannot be taken: an error, and no stream opens or closes |
| ServerMeaning.AckMeans | http2/server.go:1597-1608 | an acknowledgement that is not due is error 1 |
| ServerMeaning.TurnMeans | http2/server.go:1294-1333 | GOAWAY first, then the acknowledgement of SETTINGS, then control frames in order, and streams last |
| ServerMeaning.DataTurnMeans | http2/server.go:1316-1324 | how much of a DATA frame goes: the least of its size, both windows, the frame size and the scheduler's limit; both windows debited, the rest first in its queue, END_STREAM only with the last byte |
| ServerMeaning.OtherTurnMeans | http2/server.go:1316-1324 | other frames leave their queue and are begun; a promise opens the next even stream, or is dropped |
| ServerMeaning.WroteMeans | http2/server.go:1230-1282 | what the end of a write does to the stream it ends or resets |
| ServerMeaning.HandlerMeans | http2/server.go:1116-1175 | a handler's frame goes to the end of its stream's queue, or is dropped |
| ServerMeaning.LocalMeans | http2/server.go:896-952 | a handler's reset and push, a refund, a shutdown and an upgrade |
| Server.ServerConn.WindowsAccounted | http2/server.go:1511-1541 | in every state the connection window is 65535 plus updates minus bytes sent and not negative; each stream window is the current initial size plus updates minus bytes sent, except after a change of the initial size that failed half way; no DATA frame exceeded the frame size of its time |
| Server.ServerConn.TableAccounted | http2/server.go:1562-1595 | in every state live IDs are bounded, the counters exact and within the limit, and queuedControlFrames is the number of stream-less frames queued |
| Server.ServerConn.BodiesAccounted | http2/server.go:1749-1828 | in every state a body has at most its declared length, and ends with end of file only if it has exactly that |
| Server.ServerConn.ClosedStays | http2/server.go:638-660 | a closed stream is reported closed, and idle means never used |
| Server.ServerConn.GoAway | http2/server.go:1369-1381 | a GOAWAY with an error is not taken back |
| Server.ServerConn.WriteControl | http2/server.go:1163-1173 | a stream-less frame is queued and counted |
| Server.ServerConn.WriteOnStream | http2/server.go:1116-1175 | appended to the queue of the stream; dropped exactly if the stream is closed or a 100-continue comes after the headers |
| Server.ServerConn.ResetStream | http2/server.go:1388-1394 | queues RST_STREAM and marks a live stream |
| Server.ServerConn.CloseStream | http2/server.go:1562-1595 | the entry, its counter, its queue and its body go; everything else stays |
| Server.ServerConn.NewStream | http2/server.go:2034-2069 | a fresh entry with the current initial window under an ID that was never used |
| Server.ServerConn.ProcessHeaders | http2/server.go:1847-1960 | the state after HEADERS, as ServerSteps.HeadersDone says: ignored, connection error, trailers, refused, reset at once, or opened with its body |
| Server.ServerConn.ProcessTrailerHeaders | http2/server.go:1982-2010 | the state after trailers: good ones end the request, others reset the stream |
| Server.ServerConn.EndStream | http2/server.go:1816-1828 | end of file exactly if the length is the declared one or none was declared |
| Server.ServerConn.ProcessData | http2/server.go:1686-1793 | the state after DATA, as ServerSteps.DataDone says |
| Server.ServerConn.ReceivingHasBody | http2/server.go:1745-1747 | a stream that receives has a body that is open, so neither that panic nor a failed body write can happen |
| Server.ServerConn.ProcessWindowUpdate | http2/server.go:1511-1541 | the state after a WINDOW_UPDATE; it is logged as a grant exactly if the window stays within 2^31-1 |
| Server.ServerConn.ProcessResetStream | http2/server.go:1543-1560 | the stream is not live afterwards; the state after closing it, or after the error on an idle one |
| Server.ServerConn.ProcessSettingInitialWindowSize | http2/server.go:1658-1684 | fails exactly if some window would leave 32 bits, which, unless an earlier change failed half way, is exactly if one would exceed 2^31-1; otherwise every window moves by the difference |
| ServerState.ShiftWindows | http2/server.go:1671-1683 | in any order of the streams, stops exactly if some window leaves 32 bits |
| Server.ServerConn.ProcessSetting | http2/server.go:1625-1656 | no error exactly if the value is legal and fits all windows, and then it is in force and nothing else changes; which error otherwise, and what it leaves |
| Server.ServerConn.ApplySettings | http2/server.go:1615-1656 | the settings in turn: no error exactly if every one can be taken in the state before all of them, and then all are in force; else those before the first that cannot be taken are |
| Server.ServerConn.ProcessSettings | http2/server.go:1597-1623 | the state after SETTINGS, as ServerSteps.SettingsDone says, and exactly when they succeed |
| Server.ServerConn.TakableExactly | http2/server.go:1658-1684 | unless a change of the initial size failed half way, a setting can be taken exactly if it is legal and moves no window past 2^31-1 |
| Server.ServerConn.Take | http2/server.go:1316-1324 | both windows are debited and neither goes below zero |
| Server.ServerConn.PopStream | http2/server.go:1316-1324 | the state after a turn of one stream, as ServerSteps.Popped says; never on a stream that is closed or half closed on this side, so those panics cannot happen |
| Server.ServerConn.ScheduleFrameWrite | http2/server.go:1294-1333 | the state after a turn of the scheduling loop, as ServerSteps.Scheduled says; a DATA frame begun is logged as sent |
| Server.ServerConn.WroteFrame | http2/server.go:1230-1282 | the state after the end of a write, as ServerSteps.WriteDone says; exactly the streams that leave the table become closed |
| Server.ServerConn.AllocatePromisedID | http2/server.go:2991-3035 | a new even ID and its stream, or nothing if pushing is off, at its limit or out of IDs, which also begins a shutdown |
| Server.ServerConn.StartPush | http2/server.go:2970-3048 | a promise is queued exactly if its parent is open or half closed by the peer and pushing is on |
| Server.ServerConn.UpgradeRequest | http2/server.go:1962-1980 | stream 1 opens half closed |
| Server.ServerConn.ProcessPing | http2/server.go:1489-1509 | answered unless it is an answer or the connection is failing |
| Server.ServerConn.ProcessGoAway | http2/server.go:1795-1807 | a graceful shutdown begins unless an error is being reported, and pushing stops |

## Left out

- Punycode.Encode: takes texts of fewer than 2^31-1 scalar values, because the code counts them in 32 bits and converts the length without a check.
- Strings with invalid UTF-8 in Punycode: texts are sequences of Unicode scalar values.
- PrioritySched.PriorityWriteScheduler.Pop: the walk with a callback is a search followed by one taking step, because the callback either takes something, which ends the walk, or changes nothing.
- PrioritySched.PriorityWriteScheduler.SortKids: the comparison of weights and byte counts in floating point is any order; only that sorting permutes is used.
- PrioritySched: queues are values, so the pool of queues is not modelled there; subtreeBytes is the sum over the nodes above, not over a subtree that has been moved.
- Server.ServerConn.ScheduleFrameWrite: one turn of the loop is an event of its own; the code also enters the loop in the middle of other events, which the model orders after them. Flushing is not modelled.
- Server.ServerConn.ProcessData: whether a frame fits the inbound windows, and whether a refund is due, are arguments; inbound flow control and its refunds are not modelled.
- Server.ServerConn.PopStream: the scheduler is a queue of stream-less frames and one queue per stream, with a free choice of the stream and of the most it writes at once; the order that priorities give, and frames on streams unknown to the priority scheduler, are in PrioritySched.
- Server.ServerConn.ProcessHeaders: the request itself is an argument (its declared length, or that it is malformed); net/http requests, trailers' contents, handlers and their panics, timers, contexts and logging are not modelled.
- The first-SETTINGS rule, the client preface, graceful-shutdown timing and the limit on queued control frames of the serve loop.
- Pipe.Pipe.Read: a Read that would wait is not a step; the condition variable and the Done channel are not modelled, and setBuffer is given an empty buffer.
- DataBuffer.Buffer.Read: the caller's slice is the returned sequence; bytes of the network, the pool's own memory management and the garbage collector are not modelled.
- Framer.Framer.ReadFrame: reading from a network is taking bytes off a sequence; illegal reads and writes, frame reuse and debug logging are not modelled.
- HeaderBlock.ReadMetaFrame: header blocks are opaque bytes; HPACK decoding, header validation and size limits are not modelled.
- HtmlTokenizer.Tokenizer.ReadByte: the limit on buffered data is fixed at 0, and the buffer is a value, so the copy inside one array is the sequence it leaves.
- Text, TagName, TagAttr and Token of the tokenizer, which rewrite the data of the current token in place.
- Escape.Unescape: the tables of references are parameters with the facts that hold of them (the values of "amp;", "lt;" and "gt;", and no replacement wider than its reference).
- Escape.WriteEscaped: the writer does not fail.
- BpfVm.VM.Run: int has 64 bits, so offsets do not overflow; NegateA is reported as unknown, as the code does.
- String methods, error texts and countError hooks everywhere.
- http2/transport.go, html/parse.go, html/render.go, icmp, ipv4, dict and context: not part of this model.
