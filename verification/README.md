# LALI network library: a verified model

This project models, in Dafny, the parts of the LALI C++ library that compute or keep
state in a way that can go wrong, and proves what they are for.

**The JSON codec.** The reader is modelled twice: as the recursive-descent functions of
`Reader.h` over a mutable stream and an event log (`Reader.dfy`), and as functions on the
text left to read (`ReaderSpec.dfy`); each method is proved against its function. The
language is given independently as syntax trees that know their own text
(`Grammar.dfy`): the reader accepts exactly these texts, with exactly their meaning.
Whatever the input, the events sent are the beginning of a well-formed stream, which is
what the document and the writer rely on. What single characters, escapes and integers mean
is stated over tables (`ReaderTables.dfy`), and which error a refused text gets over the
grammar (`ReaderErrors.dfy`). The document is a stack of levels pointing into
one tree (`Document.dfy`, `DocumentSpec.dfy`); it is shown to refine a builder without
pointers (`Builder.dfy`, `DocumentProofs.dfy`). The writer (`Writer.dfy`,
`WriterSpec.dfy`) prints events; the integer printer with its bit-trick digit count is
proved exact for both widths (`Itoa.dfy`). Parser and printer undo each other
(`RoundTrip.dfy`, `Codec.dfy`), and `RoundTripExact.dfy` says exactly when: for every tree
without doubles, the tree comes back if and only if its keys can stand unescaped and no
object repeats one. Where RFC 8259 and the code differ, the code is followed: `NaN`,
`Infinity`, the suffixes `i32` and `i64`, a raw 0x00 and a lone low surrogate are accepted.

**Values.** Reference counting of blocks over every run of copying, moving, assigning,
appending and destroying (`RefCount.dfy`, `ValueStore.dfy`), and what every place holds after
each of these (`StoreReads.dfy`).

**RPC.** Length-prefixed frames in any chunks and any length line (`Framing.dfy`,
`FramingLines.dfy`), validation and id matching (`RpcSpec.dfy`), exactly which requests and
responses pass and why others do not (`RpcChecks.dfy`, `RpcAnswers.dfy`), a call and its
answer from one end to the other through writer, frames, reader and document (`Rpc.dfy`),
and the completion of a batch (`BatchResponse.dfy`).

**Streams.** The byte buffer over an array with two indices (`Buffer.dfy`,
`BufferSpace.dfy`) and the resumable request parser on it (`HttpSpec.dfy`, `HttpLines.dfy`,
`HttpContext.dfy`).

**Protocols**, as steps over every interleaving: the loop's functors and its eventfd
(`EventLoop.dfy`, `LoopRuns.dfy`), the double buffers of the log (`AsyncLogging.dfy`,
`AsyncBatches.dfy`), the timer set against its timerfd (`TimerQueue.dfy`, `TimerCalls.dfy`),
the output side of a connection (`TcpConnection.dfy`, `TcpSends.dfy`), channels against the
kernel's epoll set (`Poller.dfy`), and the log stream with its in-place integer conversion
(`Logstream.dfy`).

A C++ `char` is a Dafny `char` and no theorem depends on codes above 255. Reads, writes,
clocks, `readv`, `epoll_ctl` and the interleaving of threads are parameters or steps of
the environment. A double is represented by its text, and whether `strtod` converts it
without a range error is a parameter, `fits`; every theorem holds for any such predicate.
An exception is a result, a failed assertion of the source is `None` or an outcome of its
own.

Some facts of the code turned up as exact conditions or counterexamples:

- keys are written unescaped, so a key with a quotation mark, a backslash or a control
  character never survives (`RoundTripExact.RoundTripExactly`);
- a notification is never accepted, although the comment above the check expects no id
  (`RpcSpec.NotificationsFail`);
- a frame takes everything behind it in the buffer with it (`Framing.FrameTakesAll`);
- a frame at or over the limit is never handed on, nor anything that follows it, and the
  server keeps all the bytes (`Framing.FrameArrivesIff`, `Framing.FrameStuck`);
- a call with an `int64_t` argument that fits an `int32_t` is refused, because the argument
  arrives as an Int32 (`RpcSpec.CallAccepted`, `RpcSpec.SmallInt64Refused`);
- a procedure without parameters is refused every call of its generated stub, which always
  adds `params` (`RpcSpec.StubAccepted`, `RpcSpec.EmptyParamsRefused`);
- the answer to a call is refused once ids no longer fit an `int32_t` (`Rpc.AnswerArrives`);
- `v = v[0]` reads a freed block if `v` held the only reference (`ValueStore.AssignSafeIff`);
- a batch of the log is never cut while fewer than 52,000,000 bytes come between two
  exchanges, and may be at exactly as many (`AsyncBatches.SlowLogKeepsAll`,
  `AsyncBatches.BoundIsSharp`); a message of a whole buffer or more hands the buffer over and
  is dropped itself (`AsyncBatches.HandsOverIff`);
- any header line without a colon ends the headers (`HttpLines.ColonlessEnds`);
- after a short write the tail of a message is sent twice (`TcpConnection.ExactIffWhole`);
- a shutdown from another thread can close the write side twice, exactly if something is
  buffered or queued (`TcpConnection.PostedShutdownIff`);
- a functor queued by the loop's own thread before `loop()` wakes nobody, so the loop starts
  asleep over it unless another thread queued too (`EventLoop.NoLostWakeup`).

## Model

| member | source | states |
|---|---|---|
| Reader.Parse | LALI/jackson/Reader.h:24-37 | The imperative `parse` leaves the stream, the events sent and the error that `ReaderSpec.Parse` says, for every text |
| Reader.ParseValue | LALI/jackson/Reader.h:347-362 | The dispatch on the first character reads, sends and fails as specified, and terminates |
| Reader.ParseArray | LALI/jackson/Reader.h:274-301 | `parseArray`, with its loop, against the specification, events on the error paths included |
| Reader.ParseObject | LALI/jackson/Reader.h:303-343 | `parseObject`, with its loop, against the specification: keys, colons, commas and each error |
| Reader.ParseString | LALI/jackson/Reader.h:221-272 | The loop over a literal decodes exactly the characters the specification does, or throws its error |
| Reader.ParseEscape | LALI/jackson/Reader.h:238-267 | An escape, surrogate pairs included, appends the bytes of the code it denotes or throws |
| Reader.ParseHex4 | LALI/jackson/Reader.h:44-59 | Four hexadecimal digits in either case give their value, at most 0xFFFF; anything else throws |
| Reader.ParseNumber | LALI/jackson/Reader.h:100-219 | The scan takes the longest number and sends Int32, Int64 or Double by suffix and range, or throws |
| Reader.ParseLiteral | LALI/jackson/Reader.h:72-98 | A literal is matched character by character or is a bad value |
| Reader.ParseWhitespace | LALI/jackson/Reader.h:61-70 | Skips exactly the white space in front |
| Reader.EncodeUtf8 | LALI/jackson/Reader.cc:11-31 | Appends the UTF-8 bytes of any code up to 0x10FFFF; the default branch is not reached |
| Reader.StringReadStream.Next | LALI/jackson/StringReadStream.h:43-51 | Takes the next character, or yields a zero character at the end without moving |
| Utf8.EncodeDecode | LALI/jackson/Reader.cc:11-31 | Decoding by the bit layout of section 3 of RFC 3629 gives back every encoded code and leaves what follows |
| Utf8.CombineSplit | LALI/jackson/Reader.h:251-261 | The surrogate formula maps pairs one to one onto 0x10000-0x10FFFF (section 2.2 of RFC 2781) |
| ReaderSpec.ScanNumberSound | LALI/jackson/Reader.h:113-178 | A scanned number is a number of the grammar and is exactly the text in front of what is left |
| ReaderSound.ParseSound | LALI/jackson/Reader.h:24-362 | An accepted text is the text of a syntax tree of the grammar, and the events sent are that tree's meaning |
| ReaderComplete.ParseComplete | LALI/jackson/Reader.h:24-362 | Every text of the grammar, with any white space, is accepted with its meaning |
| ReaderComplete.AcceptsExactly | LALI/jackson/Reader.h:24-362 | A text is accepted with events es if and only if it is the text of some tree that means es |
| ReaderTables.HexExactly | LALI/jackson/Reader.h:51-56 | The hexadecimal digits are exactly those of the two tables, each with its place as its value |
| ReaderTables.UnicodeRead | LALI/jackson/Reader.h:248-263 | `\u` and the four digits of any code but a high surrogate, each in either case, are read as bytes that decode to that code |
| ReaderTables.PairRead | LALI/jackson/Reader.h:250-262 | Two escapes that UTF-16 splits a code beyond 0xFFFF into are read as bytes that decode to it |
| ReaderTables.ShortRead | LALI/jackson/Reader.h:239-247 | Each short escape of section 7 of RFC 8259 is read as its character, by a table of codes |
| ReaderTables.ShortExactly | LALI/jackson/Reader.h:239-265 | No other character is a short escape |
| ReaderTables.RawExactly | LALI/jackson/Reader.h:236-268 | The characters that stand for themselves are 0x00 and those from 0x20 on but the quotation mark and the backslash |
| ReaderTables.WhiteSpaceExactly | LALI/jackson/Reader.h:62-70 | Exactly the four codes of section 2 of RFC 8259 may stand in front of a value |
| ReaderTables.IntegerRead | LALI/jackson/Reader.h:154-218 | Every integer of any size, with either suffix or none, is read as the Int32 or Int64 it is, or is too big, with the bounds in decimal |
| ReaderTables.DoubleRead | LALI/jackson/Reader.h:133-189 | A number with a fraction or an exponent is read as the double of its own text if that is in range, and is too big if not |
| ReaderErrors.StringRefusedExactly | LALI/jackson/Reader.h:221-272 | A string is refused with an error if and only if it is valid items and then what that error stands for: the end, a control character, an unknown escape, too few digits, a broken pair |
| ReaderErrors.TailRefused | LALI/jackson/Reader.h:133-174 | A whole number with a point, an exponent or an `i` behind it that does not go on as it must is a bad value |
| ReaderErrors.DoubleSuffixRefused | LALI/jackson/Reader.h:155-158 | A double with a suffix is a bad value |
| ReaderErrors.WholeRefused | LALI/jackson/Reader.h:115-129 | So are a zero in front of a digit and a minus sign without one |
| ReaderErrors.ValueRefused | LALI/jackson/Reader.h:347-362 | The end of the text where a value must be is one error, a character no value begins with another |
| ReaderErrors.LiteralRefused | LALI/jackson/Reader.h:72-98 | What begins as one of the five literals and is not it is a bad value |
| ReaderErrors.MoreRefused | LALI/jackson/Reader.h:24-37 | Anything but white space behind the value of a document is refused, with the value sent |
| ReaderErrors.ArrayRefused | LALI/jackson/Reader.h:288-299 | An element of an array that neither a comma nor a bracket follows |
| ReaderErrors.KeyRefused | LALI/jackson/Reader.h:316-319 | An object with no key where one must be |
| ReaderErrors.ColonRefused | LALI/jackson/Reader.h:321-326 | A key that no colon follows |
| ReaderErrors.ObjectRefused | LALI/jackson/Reader.h:330-341 | A member that neither a comma nor a bracket follows |
| ReaderEvents.ParseWellFormed | LALI/jackson/Reader.h:275-362 | For every input the events sent are the beginning of a well-formed stream, and one whole value on PARSE_OK |
| Json.TreeComplete | LALI/jackson/Value.h:322-364 | What `writeTo` sends for any tree is one whole value of the event grammar |
| Writer.WriteTo | LALI/jackson/Value.h:322-364 | `writeTo` into a `Writer` leaves the printer that putting the tree's events one by one leaves |
| Writer.Writer.PutPrefix | LALI/jackson/Writer.h:167-192 | `prefix` puts the comma or colon due and counts the value, as the printer's specification says |
| Writer.Writer.String | LALI/jackson/Writer.h:99-126 | A string is put between quotation marks with every character escaped that needs it |
| Writer.Writer.Key | LALI/jackson/Writer.h:134-141 | A key is put as it is, unescaped |
| Writer.Writer.Int32 | LALI/jackson/Writer.h:53-61 | Puts the decimal text through the eleven-byte buffer |
| Writer.Writer.Int64 | LALI/jackson/Writer.h:62-70 | Puts the decimal text through the twenty-byte buffer, with no suffix |
| WriterSpec.NoAssertionFails | LALI/jackson/Writer.h:142-192 | No assertion of the writer fails on any beginning of a well-formed event stream |
| WriterSpec.WriteTree | LALI/jackson/Writer.h:41-192 | Writing a tree fails no assertion and yields the text defined by recursion over the tree |
| Itoa.CountDigitsExact32 | LALI/jackson/Writer.cc:14-37 | The bit-trick count is the length of the decimal text for every 32-bit number |
| Itoa.CountDigitsExact64 | LALI/jackson/Writer.cc:39-65 | And for every 64-bit number |
| Itoa.Digits | LALI/jackson/Writer.cc:70-103 | Two digits at a time from the back: exactly the decimal text, nothing else written, the index never below zero |
| Itoa.Itoa32 | LALI/jackson/Writer.cc:113-121 | Eleven bytes hold the exact text of every int32, the smallest included |
| Itoa.Itoa64 | LALI/jackson/Writer.cc:124-132 | Twenty bytes hold the exact text of every int64, the smallest included |
| RoundTrip.NumberDenotes | LALI/jackson/Reader.h:191-214 | The decimal text of an integer reads back as the same integer, as an Int32 exactly when it fits |
| RoundTrip.ItemDenotes | LALI/jackson/Writer.h:103-122 | The escape put for a character is one the reader maps back to that character, for all characters |
| RoundTrip.TextRoundTrip | LALI/jackson/Reader.h:25-362 | Reading what was written sends the events of the normalised tree |
| Codec.TreeRoundTrip | LALI/jackson/Writer.h:41-192 | A double-free tree with plain, distinct keys survives writing and parsing, but for Int64 values that fit an Int32 |
| RoundTripExact.RoundTripExactly | LALI/jackson/Writer.h:134-141 | For every double-free tree the round trip holds if and only if all keys are plain and no object repeats one |
| RoundTripExact.KeyBack | LALI/jackson/Reader.h:224-271 | A key in front of its closing quotation mark that is not plain reads back shorter or with more quotation marks |
| RoundTripExact.EventsUnique | LALI/jackson/Value.h:322-364 | The events of one tree are never the beginning of another's: trees are determined by their streams |
| Codec.UnescapedKeyBreaks | LALI/jackson/Writer.h:134-141 | A key that is one quotation mark is written as a text that the reader refuses |
| Codec.ParsesExactly | LALI/jackson/Document.h:32-36 | A document parses a text of the grammar to the tree the text stands for, and an assertion fails exactly if the tree repeats a key |
| Codec.ParsesOnlyGrammar | LALI/jackson/Document.h:32-36 | What a document parses is a text of the grammar, and the root is that text's tree, without repeated keys |
| Codec.OnlyDuplicateKeysFail | LALI/jackson/Document.h:80-140 | For every input no assertion of a writer fails, and one of the document only at the value of a key its object already has |
| Document.Document.Parse | LALI/jackson/Document.h:26-36 | Parsing into a fresh document returns the reader's error and leaves the state of the stack machine after its events |
| Document.Document.AddValue | LALI/jackson/Document.h:102-140 | `addValue` changes root, pending key and counts as the specification does and yields the place of the new value |
| Document.Document.StartObject | LALI/jackson/Document.h:69-74 | Opens a level that points at the new object |
| Document.Document.EndObject | LALI/jackson/Document.h:80-86 | Closes the level of an object |
| DocumentProofs.StepRefines | LALI/jackson/Document.h:102-165 | Each event on levels that point into one tree does what the same event does on open containers with no pointers |
| DocumentProofs.DocumentReplays | LALI/jackson/Document.h:142-170 | On any beginning of a well-formed stream every level points at the last child of the one below, and the tree replays the events received |
| DocumentProofs.NoLevelDangles | LALI/jackson/Document.h:119-165 | No level points at or below a child of the value the top level points to, so a vector that grows moves nothing a level points to |
| DocumentProofs.DocumentBuilds | LALI/jackson/Document.h:102-140 | The events of a tree build that tree if every object has distinct keys, and fail an assertion if not |
| DocumentProofs.OnlyDuplicatesFail | LALI/jackson/Value.cc:154-161 | An event of a well-formed stream is refused only where it begins the value of a key that is taken |
| DocumentSpec.TipPath | LALI/jackson/Document.h:154-161 | The path of last children leads to a place in the tree, the innermost open container |
| Builder.TreeBuilds | LALI/jackson/Document.h:102-140 | Without pointers: a tree's events add the tree wherever a value fits, if and only if its keys are distinct |
| Builder.BuildReplays | LALI/jackson/Value.h:322-364 | What is built from any beginning of a stream sends that beginning back |
| Builder.AddsUnlessTaken | LALI/jackson/Value.cc:154-161 | An event of a well-formed stream is refused exactly if it begins a value for a key that is taken |
| RefCount.ReleaseCounted | LALI/jackson/Value.cc:89-111 | Destroying any values recursively touches no freed block and keeps every count equal to the number of values that refer to the block |
| RefCount.ReleaseShrinks | LALI/jackson/Value.cc:89-111 | It changes nothing in a surviving block but its count, and no freed block comes back |
| RefCount.NoLeak | LALI/jackson/Value.h:261-290 | In an acyclic heap with right counts nothing is left once nothing outside refers to a block |
| RefCount.EdgeAcyclicIff | LALI/jackson/Value.cc:154-161 | A reference put into a block closes a cycle if and only if what it refers to leads to that block |
| ValueStore.StepKeeps | LALI/jackson/Value.cc:9-111 | Copying, moving, assigning over, appending to and destroying any value, in a variable or inside a block, keep the counts right and the heap acyclic |
| ValueStore.RunsAreClean | LALI/jackson/Value.cc:9-111 | Over every allowed run, assignments over elements included, no freed block is touched, every count is exact, and nothing leaks once all variables are gone |
| ValueStore.StepFreedStay | LALI/jackson/Value.cc:89-111 | A freed block is never in use again, so no block is freed twice |
| ValueStore.SurvivesIffReached | LALI/jackson/Value.cc:89-111 | A block outlives the destruction of a value, wherever that is, if and only if a variable leads to it without that value |
| ValueStore.TargetSurvives | LALI/jackson/Value.cc:37-70 | Destroying an element may free other blocks but never the one the element is in |
| ValueStore.AssignSafeIff | LALI/jackson/Value.cc:37-70 | Assigning over any value reads no freed block if and only if the source outlives the old value; the counts are right then, and a cycle closes exactly if the new value leads to the block it is written into |
| ValueStore.AppendSafeIff | LALI/jackson/Value.h:235-241 | Appending touches no freed block, and closes a cycle exactly if the value appended leads to the block it is appended to |
| ValueStore.AssignFromInside | LALI/jackson/Value.cc:37-59 | `v = v[0]` with v the only reference reads a freed block |
| ValueStore.Values.Destroy | LALI/jackson/Value.cc:89-111 | The recursive destructor terminates and leaves the heap that releasing the value leaves |
| ValueStore.Values.CopyConstruct | LALI/jackson/Value.cc:9-27 | Copying counts one more reference |
| ValueStore.Values.MoveConstruct | LALI/jackson/Value.cc:29-35 | Moving leaves a null value behind and no count changed |
| ValueStore.Values.AssignTo | LALI/jackson/Value.cc:37-70 | Assignment over a variable or an element destroys the old value first and then takes the new one |
| ValueStore.Values.DestroyAt | LALI/jackson/Value.cc:89-111 | A value is destroyed where it lives, in a variable or inside a block |
| ValueStore.Values.SetNewBlock | LALI/jackson/Value.h:178-194 | The setters of arrays, objects and strings destroy the old value and refer to a new block |
| ValueStore.Values.SetNewScalar | LALI/jackson/Value.h:148-176 | The setters of scalars destroy the old value and write the new one |
| StoreReads.AssignReads | LALI/jackson/Value.cc:37-70 | After an assignment the target holds what the source held, a source moved from null, one copied from the same, and every other place that is left what it held; gone are the blocks only the old value led to |
| StoreReads.NewReads | LALI/jackson/Value.cc:9-35 | A new variable holds what the source held; nothing else changes but a source that is moved from |
| StoreReads.MadeReads | LALI/jackson/Value.cc:72-87 | A value that is made is a new variable, with a new block if it is a container, and changes nothing else |
| StoreReads.AppendReads | LALI/jackson/Value.h:235-241 | The target's block has what the source held behind its old values; nothing else changes |
| StoreReads.DestroyReads | LALI/jackson/Value.cc:89-111 | Destroying leaves every other place that is left as it was, and exactly the blocks something else leads to |
| StoreReads.SetScalarReads | LALI/jackson/Value.h:148-176 | A setter of scalars leaves that scalar and all else as it was |
| StoreReads.SetBlockReads | LALI/jackson/Value.h:178-194 | A setter of containers leaves a reference to a new, empty block with count one |
| Framing.FrameDelivered | LALI/zrpc/server/BaseServer.cpp:48-94 | A frame in any chunks: every proper beginning stays in the buffer and hands nothing on; the last byte hands on the text with CR LF once and empties the buffer |
| Framing.PrefixWaits | LALI/zrpc/server/BaseServer.cpp:51-75 | No proper beginning of a frame is handed on or refused |
| Framing.FrameTakesAll | LALI/zrpc/server/BaseServer.cpp:77-78 | What follows a frame in the buffer is handed on with it, so a frame comes through as sent exactly if it is alone |
| Framing.HeaderReads | LALI/zrpc/client/RpcClient.cpp:34-37 | The length line reads back through the JSON parser as the length |
| Framing.LongHeaderReads | LALI/zrpc/server/BaseServer.cpp:63-69 | A length of 2^31 or more reads as an Int64, and from 2^63 on is a number too big, so neither is a length |
| Framing.DeliveredIff | LALI/zrpc/server/BaseServer.cpp:63-78 | A whole frame is handed on if and only if its length is below the limit; otherwise it is too long or, from 2^31 on, a bad length |
| Framing.FrameStuck | LALI/zrpc/server/BaseServer.cpp:63-75 | A frame over the limit and whatever follows it, in any chunks, stay in the buffer for good and nothing is ever handed on |
| Framing.FrameArrivesIff | LALI/zrpc/client/RpcClient.cpp:52-80 | A frame in any chunks is handed on, once and as it was sent, if and only if its length is below the limit; the client's dropping of bad length lines hands nothing on either |
| FramingLines.LengthLine | LALI/zrpc/server/BaseServer.cpp:58-78 | The verdict on a length line that holds any integer: bad if not positive or no int32, too long from the limit on, and otherwise a length |
| FramingLines.BlankLine | LALI/zrpc/server/BaseServer.cpp:53-56 | A blank line: the server drops its two bytes and stops, the client takes it for a bad length and drops it |
| FramingLines.LengthThrows | LALI/zrpc/client/RpcClient.cpp:62-71 | What either end throws for any integer on a length line, with both limits as numbers |
| Framing.ServerHandleMessage | LALI/zrpc/server/BaseServer.cpp:48-94 | The server's loop over the buffer hands on, keeps and throws what the verdict on its bytes says |
| Framing.ClientHandleMessage | LALI/zrpc/client/RpcClient.cpp:52-80 | The client's loop likewise; it drops a bad length line before it throws |
| RpcSpec.CallAccepted | LALI/zrpc/server/Rpcserver.cpp:127-193 | A stub-shaped call whose params match as sent is validated and calls its procedure if and only if no argument is an Int64 that fits an int32; otherwise it is a mismatch |
| RpcSpec.ShapedAccepted | LALI/zrpc/server/Rpcserver.cpp:127-193 | Whatever its params and its id, a stub-shaped call is accepted if and only if the params match as they arrive |
| RpcSpec.MatchKept | LALI/zrpc/server/Procedure.cpp:35-67 | Params that match as sent match as they arrive, by position or by name, if and only if no argument is an Int64 that fits an int32 |
| RpcSpec.StubAccepted | LALI/zrpc/stub/ClientStub.cpp:73-99 | A generated stub's call with arguments of the declared types is accepted if and only if there is an argument and none is an Int64 that fits an int32 |
| RpcSpec.SmallInt64Refused | LALI/zrpc/server/Procedure.cpp:54-61 | A procedure with one int64 parameter refuses every argument of int32 size |
| RpcSpec.EmptyParamsRefused | LALI/zrpc/server/Procedure.cpp:37-45 | A procedure without parameters refuses every call of its stub |
| RpcSpec.ResponseValidIff | LALI/zrpc/client/RpcClient.cpp:141-159 | The response to any request passes validation if and only if the id arrives as an Int32 |
| RpcSpec.ResponseReaches | LALI/zrpc/client/RpcClient.cpp:108-159 | The response to a call under way reaches the callback of its id, and no other, if the id is an int32; with any other id it is refused |
| RpcSpec.NotificationsFail | LALI/zrpc/server/Rpcserver.cpp:196-217 | No request is ever accepted as a notification: without an id one is demanded, with one there is a field too many |
| RpcSpec.FindNormal | LALI/jackson/Value.cc:140-146 | Looking a member up and normalising the tree commute |
| RpcSpec.BatchStopsAtFirstBad | LALI/zrpc/server/Rpcserver.cpp:101-122 | A batch makes the calls of its requests in order up to the first bad one, and throws exactly if there is one |
| RpcChecks.AcceptedIff | LALI/zrpc/server/Rpcserver.cpp:127-193 | The server makes a call if and only if the request has an id of the three types, the version, a registered "service.verb", fitting arguments and no other member, and makes that call |
| RpcChecks.RefusedBecause | LALI/zrpc/server/Rpcserver.cpp:127-193 | Every other request is refused with the message of the first of fourteen conditions it does not meet |
| RpcChecks.MatchIff | LALI/zrpc/server/Procedure.cpp:35-67 | Params are let through if and only if the list of their types is that of the parameters, or as many are named and each parameter's first member has its type |
| RpcChecks.BatchThrows | LALI/zrpc/server/Rpcserver.cpp:101-122 | A batch ends with the message of its first bad element: no object, a notification, or a request that is refused |
| RpcChecks.OneMoreRefused | LALI/zrpc/server/Procedure.cpp:43-45 | One argument more than the parameters is never let through |
| RpcChecks.NamedIff | LALI/zrpc/server/Procedure.cpp:54-61 | With distinct names, arguments by name are let through if and only if they are the declared names with the declared types |
| RpcAnswers.CalledIff | LALI/zrpc/client/RpcClient.cpp:108-128 | Exactly which responses call a callback, which one, with the result or, marked as an error, the error; that callback alone is gone then |
| RpcAnswers.ErrorReaches | LALI/zrpc/client/RpcClient.cpp:122-127 | An error response reaches the callback of its id, marked as an error, whatever the order of its members |
| RpcAnswers.ResponseRefusedBecause | LALI/zrpc/client/RpcClient.cpp:141-159 | Every other response is refused with the message of the first of nine conditions it does not meet |
| RpcAnswers.BatchAnswers | LALI/zrpc/client/RpcClient.cpp:92-100 | The responses of a batch call their callbacks in order, results and errors alike, up to the first one refused |
| RpcAnswers.TreeTextRead | LALI/zrpc/client/RpcClient.cpp:82-106 | What either end makes of the text of any tree: one object, a batch, an empty batch, or none of these |
| RpcAnswers.BadTextRefused | LALI/zrpc/client/RpcClient.cpp:82-86 | A text that is no JSON is refused at either end, each with its message |
| RpcAnswers.ErrorArrives | LALI/zrpc/client/RpcClient.cpp:52-128 | An error response in any chunks calls its callback with the error, marked as one |
| Rpc.RpcClient.SendCall | LALI/zrpc/client/RpcClient.cpp:16-39 | Registers the callback under the next id and sends the frame of the call with that id |
| Rpc.RpcClient.HandleSingleResponse | LALI/zrpc/client/RpcClient.cpp:108-128 | Calls the callback of the response's id with its result or its error, as `RpcAnswers.CalledIff` says, and forgets it, or throws |
| Rpc.RpcClient.HandleResponse | LALI/zrpc/client/RpcClient.cpp:82-106 | One response or a batch, one after another up to the first bad one |
| Rpc.SendTree | LALI/zrpc/client/RpcClient.cpp:29-39 | Writing a tree and putting its length in front makes the frame of its text |
| Rpc.TreeCrosses | LALI/zrpc/server/BaseServer.cpp:97-108 | A sendable tree, framed and cut into any chunks, arrives once and reads as the normalised tree if and only if its text is within the limit; otherwise nothing arrives |
| Rpc.CallArrives | LALI/zrpc/server/Rpcserver.cpp:80-148 | A stub-shaped call in any chunks is handed on if and only if it is within the limit, and then calls the procedure with the normalised request if and only if no argument is an Int64 that fits an int32 |
| Rpc.AnswerArrives | LALI/zrpc/util.h:31-37 | The procedure's answer in any chunks is handed on if and only if it is within the limit, and then calls that call's callback once with the normalised result if and only if the id is an int32; otherwise it is refused |
| Rpc.EndToEnd | LALI/zrpc/client/RpcClient.cpp:16-128 | There and back together: exactly when the procedure is called, and exactly when its answer calls the callback that sendCall registered |
| Rpc.CallbacksOnce | LALI/zrpc/client/RpcClient.cpp:16-23 | Over any run of calls and responses in any order a callback is called at most once, after its call, and those held are the unanswered ones |
| BatchResponse.DoneOnce | LALI/zrpc/server/Rpcserver.cpp:43-72 | Over every interleaving, exceptions included, the shared data is never used after it is gone, and `done` runs exactly when the loop has left and the last callback is gone, once, with the responses added |
| BatchResponse.NothingAfterDone | LALI/zrpc/server/Rpcserver.cpp:62-64 | After `done` the loop has left and no callback is alive, so nothing uses the collector any more |
| BatchResponse.DoneGetsAll | LALI/zrpc/server/Rpcserver.cpp:49-64 | Over every run done gets the responses given, in that order, and the loop hands out each request once |
| BatchResponse.HoldersMay | LALI/zrpc/server/Rpcserver.cpp:43-72 | In every state exactly those who hold a callback can answer with it, copy it and destroy it |
| Buffer.Conserved | LALI/net/Buffer.h:62-139 | Over any run of appends, reads, retrieves and prepends that fit, the bytes taken and then those left are one log, into which prepends go where it stands |
| Buffer.FirstInFirstOut | LALI/net/Buffer.h:62-92 | Without prepends, what was taken and then what is left is what was there and then what was put |
| Buffer.FrontKept | LALI/net/Buffer.h:25-32 | Without prepends the eight bytes in front stay free, so that a prepend of as many fits |
| BufferSpace.AppendSpace | LALI/net/Buffer.h:93-139 | An append grows the array if and only if the readable bytes, the new ones and eight do not fit it, by no more than it needs; if they fit only after a move they are moved |
| BufferSpace.TakeSpace | LALI/net/Buffer.h:62-74 | What is taken is space in front, and an empty buffer starts over at eight |
| BufferSpace.NeverGrows | LALI/net/Buffer.h:82-139 | Over any run in which never more than n bytes are readable an array of n + 8 never grows |
| BufferSpace.EightFit | LALI/net/Buffer.h:105-109 | Without earlier prepends one of up to eight bytes always fits |
| Buffer.FindCrlfFirst | LALI/net/Buffer.h:47-51 | The CR LF found is the first one, and one is found if there is any |
| Buffer.FindCrlfStable | LALI/net/Buffer.h:47-51 | More bytes behind do not move a CR LF that was found |
| Buffer.Buffer.FindCRLF | LALI/net/Buffer.h:47-51 | The search over the array finds what the specification finds in the readable bytes |
| Buffer.Buffer.Retrieve | LALI/net/Buffer.h:62-74 | Drops that many readable bytes, or all |
| Buffer.Buffer.RetrieveAsString | LALI/net/Buffer.h:75-79 | Yields all readable bytes and leaves none |
| Buffer.Buffer.Append | LALI/net/Buffer.h:82-92 | The readable bytes grow by exactly those appended |
| Buffer.Buffer.MakeSpace | LALI/net/Buffer.h:125-139 | Leaves room for len and the readable bytes as they were, growing exactly if moving them would not give room |
| Buffer.Buffer.MoveToFront | LALI/net/Buffer.h:131-138 | The forward copy over itself keeps the readable bytes, because it is reached only with the read index beyond the front |
| Buffer.Buffer.Prepend | LALI/net/Buffer.h:105-109 | Puts bytes that fit the space in front before the readable ones |
| Buffer.Buffer.ReadFd | LALI/net/Buffer.cpp:19-39 | All bytes of a read into the rest of the buffer and the spill area are appended in order |
| HttpSpec.TerminatesIff | LALI/net/HttpContext.cpp:37-82 | The loop returns if and only if it is called in the request line or header phase, and then with the verdict and state of the parse |
| HttpSpec.ChunkInvariance | LALI/net/HttpContext.cpp:37-82 | Any way of cutting the bytes into chunks gives the same verdict, phase, request and leftover bytes |
| HttpSpec.ParseMore | LALI/net/HttpContext.cpp:37-82 | A parse that wants more, continued with more bytes, is the parse of all of them |
| HttpSpec.RequestRoundTrip | LALI/net/HttpContext.cpp:9-82 | The text of a request yields its method, path, query, version and headers, and leaves the bytes behind it |
| HttpSpec.RequestLineParses | LALI/net/HttpContext.cpp:9-35 | A request line is cut where it was joined |
| HttpSpec.HeadersParse | LALI/net/HttpRequst.h:105-116 | Header lines fill the map with names and trimmed values, later ones over earlier ones |
| HttpLines.AcceptedIff | LALI/net/HttpContext.cpp:9-35 | A request line is accepted if and only if it is a method of the table, a target and a version of the table with a space between them |
| HttpLines.BadFront | LALI/net/HttpContext.cpp:12-16 | What a line without a space, with an unknown method or without a second space leaves |
| HttpLines.BadVersion | LALI/net/HttpContext.cpp:17-31 | A line with an unknown version is refused with method, path and query set |
| HttpLines.BadLineStops | LALI/net/HttpContext.cpp:41-53 | A bad line stops the parser with all its bytes left, whatever follows |
| HttpLines.MethodExactly | LALI/net/HttpRequst.h:34-56 | The methods are the five of the table |
| HttpLines.HeaderTrims | LALI/net/HttpRequst.h:105-116 | A header's value loses the white space on both sides and nothing else, and may hold colons |
| HttpLines.SpaceExactly | LALI/net/HttpRequst.h:108-114 | White space is the six codes of the C locale |
| HttpLines.ColonlessEnds | LALI/net/HttpContext.cpp:62-69 | Any line without a colon ends the headers |
| HttpContext.HttpContext.ParseRequest | LALI/net/HttpContext.cpp:37-82 | The loop over the buffer terminates and leaves verdict, context and buffer as specified |
| HttpContext.HttpContext.PartOnRequestLine | LALI/net/HttpContext.cpp:9-35 | The request line's fields and verdict, failures that change part of the request included |
| HttpContext.HttpRequest.AddHeader | LALI/net/HttpRequst.h:105-116 | The trimming loops store the trimmed value under the name |
| EventLoop.NoLostWakeup | LALI/net/EventLoop.cpp:39-83 | For whatever was queued before `loop()`: no later interleaving has functors pending at poll with the eventfd at zero and no producer before its wakeup, if and only if it was not the loop's own thread alone that queued |
| EventLoop.StartsLostIff | LALI/net/EventLoop.cpp:58-67 | `loop()` starts with a functor pending and nobody to wake it if and only if its own thread queued before and no other thread did |
| EventLoop.RunInOrder | LALI/net/EventLoop.cpp:58-83 | Over every run functors run once each in push order: executed, rest of the batch and pending are the history |
| EventLoop.TurnDrains | LALI/net/EventLoop.cpp:135-149 | A loop that is woken runs everything pending in one turn and goes back to poll with the eventfd read |
| LoopRuns.RunsAddUp | LALI/net/EventLoop.cpp:39-83 | Over every run executed, batch and pending are what queueInLoop was given, in order; the eventfd counts the writes since its last read and is never read at zero |
| LoopRuns.AllGoOn | LALI/net/EventLoop.cpp:58-83 | In every state the loop can take its next action and a thread can queue and then write |
| LoopRuns.BatchIsRun | LALI/net/EventLoop.cpp:69-83 | From wherever a batch is being run the loop runs the rest, writes what it owes and comes back to poll |
| LoopRuns.OwnAloneSleeps | LALI/net/EventLoop.cpp:58-67 | One functor that the loop's own thread queues before `loop()` is slept over |
| EventLoop.EventLoop.QueueInLoop | LALI/net/EventLoop.cpp:58-67 | Queues the functor last and writes to the eventfd from another thread or while functors run |
| EventLoop.EventLoop.DoPendingFunctor | LALI/net/EventLoop.cpp:69-83 | Every functor that was pending runs once in order; those they queue are pending after, with a write to the eventfd for each |
| AsyncLogging.RunsAreSound | LALI/base/AsyncLogging.cpp:28-108 | In every interleaving no null buffer is used and no empty vector popped; all that was appended is in a batch taken or still buffered, in order; the file is what the batches put out |
| AsyncLogging.NothingLost | LALI/base/AsyncLogging.cpp:60-106 | While no batch exceeds 25 buffers, file, unwritten batch, waiting buffers and current buffer are exactly what was appended |
| AsyncLogging.CutLoses | LALI/base/AsyncLogging.cpp:75-83 | At any cut a run reaches the file grows by the note and the first two buffers, and the bytes of the others, which were taken, are lost |
| AsyncLogging.LossIsExact | LALI/base/AsyncLogging.cpp:60-106 | Over every run, what file, buffers and batch are short of what was appended is what the cuts lost, less the notes |
| AsyncLogging.StepKeepsOwned | LALI/base/AsyncLogging.cpp:28-103 | No step faults; `currentBuffer_` is never null at append, and a null `nextBuffer_` means `buffers_` is not empty |
| AsyncBatches.HandsOverIff | LALI/base/AsyncLogging.cpp:28-46 | append hands the current buffer over if and only if the message does not leave a byte free in it, and the message begins the next one |
| AsyncBatches.RunsAreDense | LALI/base/AsyncLogging.cpp:28-73 | Over every run of messages shorter than a buffer any two buffers in a row hold a buffer's worth, and what waits is what came since the last exchange |
| AsyncBatches.DenseHolds | LALI/base/AsyncLogging.cpp:28-46 | So n such buffers stand for at least (n / 2) of a buffer's size |
| AsyncBatches.SlowLogKeepsAll | LALI/base/AsyncLogging.cpp:60-106 | If fewer than 13 buffers' worth come between two exchanges, file, batch and buffers are exactly the messages appended |
| AsyncBatches.BoundIsSharp | LALI/base/AsyncLogging.cpp:75-83 | With exactly as many bytes a batch of 26 buffers, which is cut, can come about |
| AsyncBatches.RefillFaultsIff | LALI/base/AsyncLogging.cpp:89-104 | The spare buffers can be refilled if and only if the batch has one for each that is missing |
| AsyncBatches.TurnIsTaken | LALI/base/AsyncLogging.cpp:60-106 | A turn can always be taken; it writes all that waits, or the note and the first two buffers of more than 25, and leaves both buffers and both spares empty |
| AsyncBatches.BuffersAreMoved | LALI/base/AsyncLogging.cpp:28-73 | append makes a buffer if and only if it hands one over without a next one; the exchange makes and drops none |
| AsyncLogging.AsyncLogging.Append | LALI/base/AsyncLogging.cpp:28-46 | `append` moves buffers and characters as the step does |
| AsyncLogging.AsyncLogging.Exchange | LALI/base/AsyncLogging.cpp:62-73 | The critical section of the background thread |
| AsyncLogging.AsyncLogging.WriteBatch | LALI/base/AsyncLogging.cpp:75-87 | Cuts a batch that is too long and writes the rest in order |
| AsyncLogging.AsyncLogging.Refill | LALI/base/AsyncLogging.cpp:89-104 | Takes written buffers as the spare ones |
| AsyncLogging.AsyncLogging.Turn | LALI/base/AsyncLogging.cpp:60-106 | A turn nobody interrupts empties the shared buffers into the file |
| TimerQueue.SetAndTimerfdAgree | LALI/net/TimerQueue.cpp:80-149 | Entries carry their timers' expirations, and outside handleRead a set that is not empty has its timerfd readable or armed for the earliest |
| TimerQueue.EarliestFires | LALI/net/TimerQueue.cpp:19-32 | The timerfd is readable when the earliest timer is due, or 100 microseconds ahead if that is later |
| TimerQueue.CallsAreDue | LALI/net/TimerQueue.cpp:103-149 | No callback comes before its time; a one-shot timer runs at most once and exactly once before it is deleted; a repeating one is always queued or in the expired batch, its calls its interval apart |
| TimerCalls.CallsKeepTime | LALI/net/TimerQueue.cpp:103-149 | Over every run a callback is called only for a timer that was asked for, not before its time, and again only if its interval is positive and that many seconds later, less a microsecond |
| TimerCalls.DeltaExact | LALI/base/Timestamp.h:75-78 | addTime adds the interval's seconds times 1,000,000, cut to a whole number |
| TimerCalls.WaitExact | LALI/net/TimerQueue.cpp:19-32 | The timerfd is set to the time left in nanoseconds, at least 100 microseconds |
| TimerCalls.AddArmsIff | LALI/net/TimerQueue.cpp:80-101 | A timer that is added arms the timerfd if and only if it is due before all others |
| TimerCalls.HandleReadClears | LALI/net/TimerQueue.cpp:35-39 | handleRead leaves the timerfd unreadable until the clock moves on |
| TimerCalls.FiresExactly | LALI/net/TimerQueue.cpp:41-51 | The timerfd becomes readable when the wait it was armed for is over, and no sooner |
| TimerQueue.ExpiredExactly | LALI/net/TimerQueue.cpp:117-125 | getExpired takes exactly the entries with time <= now |
| TimerQueue.InsertSorted | LALI/net/TimerQueue.cpp:89-101 | Inserting keeps the set strictly ordered |
| TimerQueue.HowMuchTimeFromNow | LALI/net/TimerQueue.cpp:19-32 | Seconds and nanoseconds make up the wait, never less than 100 microseconds and never zero |
| TimerQueue.ResetCompletes | LALI/net/TimerQueue.cpp:127-149 | reset finds every expired timer allocated and ends with the set and timers in agreement |
| TimerQueue.TimerQueue.AddTimerInLoop | LALI/net/TimerQueue.cpp:80-101 | Inserts, and arms the timerfd if the earliest changed |
| TimerQueue.TimerQueue.GetExpired | LALI/net/TimerQueue.cpp:103-125 | The search for the sentry splits the set at now |
| TimerQueue.TimerQueue.Reset | LALI/net/TimerQueue.cpp:127-149 | Restarts repeating timers, deletes the others and arms for the earliest |
| TcpConnection.InterestIsExact | LALI/net/TcpConnection.cpp:88-158 | Over every run interest in writing is on exactly while outputBuffer_ is not empty |
| TcpConnection.ClosedOnce | LALI/net/TcpConnection.cpp:131-170 | With shutdown called in the loop: the write side is closed at most once, never before shutdown, and as soon as nothing is left to write |
| TcpConnection.ClosedEmpty | LALI/net/TcpConnection.cpp:139-170 | It is closed only by a step that leaves the output empty |
| TcpConnection.PostedShutdownIff | LALI/net/TcpConnection.cpp:131-170 | In any reachable connected state a shutdown from another thread can close the write side twice if and only if something is buffered or a non-empty message is queued; otherwise every later run closes it at most once |
| TcpConnection.PostedShutdownClosesTwice | LALI/net/TcpConnection.cpp:159-170 | From the start: a short write, a shutdown from another thread, a drain and the queued task close the write side twice |
| TcpConnection.WriteConserves | LALI/net/TcpConnection.cpp:131-158 | handleWrite keeps the bytes written and buffered together as they were |
| TcpConnection.EverySendStreams | LALI/net/TcpConnection.cpp:88-130 | Over every run the bytes written and buffered are the messages in order, each followed once more by the tail its direct write left |
| TcpSends.PostedInOrder | LALI/net/TcpConnection.cpp:78-130 | Over every run what other threads sent while connected is, in order, what the loop has taken and what is still queued, and the stream is what it sent directly and took, in the order it did |
| TcpSends.NothingTakenIn | LALI/net/TcpConnection.cpp:78-87 | After a shutdown or the end nothing more is taken in, from any thread |
| TcpConnection.ExactIffWhole | LALI/net/TcpConnection.cpp:88-130 | The messages are delivered exactly if and only if every direct write took its message whole |
| TcpConnection.ShortWriteRepeats | LALI/net/TcpConnection.cpp:109-129 | After a short write the peer reads the tail twice |
| TcpConnection.TcpConnection.SendInLoop | LALI/net/TcpConnection.cpp:88-130 | sendInLoop changes wire, buffer and interest as the step does, both appends included |
| TcpConnection.TcpConnection.HandleWrite | LALI/net/TcpConnection.cpp:131-158 | handleWrite moves what was written, and drops interest and closes when it drains |
| Poller.RunAgrees | LALI/net/Poller.cpp:82-141 | From an empty poller, after any calls with one registered channel per descriptor, the kernel holds a channel exactly when its index is Add, with its mask, and no epoll_ctl has failed |
| Poller.AlterAgreesIff | LALI/net/Poller.cpp:82-93 | For an unregistered channel the agreement is kept if and only if no other is registered for the descriptor, and epoll_ctl fails if and only if the kernel has it |
| Poller.RemoveAgreesIff | LALI/net/Poller.cpp:130-141 | Removing an unregistered channel keeps the agreement if and only if no other is registered for the descriptor; otherwise that one's entry is erased |
| Poller.EventsAreWatched | LALI/net/Poller.cpp:82-141 | Over every run whatever events a registered channel wants, the kernel watches its descriptor for exactly those |
| Poller.UpdateRegisters | LALI/net/Poller.cpp:82-104 | After an update the kernel has the channel with its mask, or does not have it if it was there and wants nothing; nothing else changes |
| Poller.RemoveUnregisters | LALI/net/Poller.cpp:130-141 | After a removal neither map has the descriptor, and all else is as it was |
| Poller.OpenAndClose | LALI/net/Channel.cpp:15-27 | A channel that is made wants nothing and is registered nowhere; making and destroying one changes no set |
| Poller.MaskBits | LALI/net/Channel.h:44-48 | Bit by bit what each change of the interest sets or clears, and that every other bit stays |
| Poller.Channel.EnableReading | LALI/net/Channel.h:44 | Sets both read bits, leaves the others and updates |
| Poller.Poller.UpdateChannel | LALI/net/Poller.cpp:82-104 | updateChannel on the objects is the step of the specification |
| Poller.Poller.RemoveChannel | LALI/net/Poller.cpp:130-141 | removeChannel on the objects is the step of the specification |
| Poller.Channel.EnableWriting | LALI/net/Channel.h:45-47 | Sets the write bit, leaves the others and updates; isWriting holds after |
| Poller.Channel.DisableWriting | LALI/net/Channel.h:46-47 | Clears the write bit, leaves the others and updates; isWriting does not hold after |
| Logstream.Convert | LALI/base/Logstream.cpp:13-30 | The digits written backwards and reversed in place are the decimal text of every value of every integer type, within 32 bytes |
| Logstream.DigitOfRem | LALI/base/Logstream.cpp:10-22 | A truncating remainder of either sign finds the digit of its magnitude in the table |
| Logstream.PutAllKeeps | LALI/base/Logstream.cpp:35-41 | The buffer is never full, and holds all items while they leave room for the longest number |
| Logstream.DroppedIff | LALI/base/Logstream.cpp:35-41 | A text is dropped if and only if it would not leave a byte of the 4000 free, an integer if and only if fewer than 32 are free |
| Logstream.FixedBuffer.Append | LALI/base/Logstream.h:25-30 | Takes an item whole or not at all, leaving a byte free |
| Logstream.Logstream.FormatInteger | LALI/base/Logstream.cpp:35-41 | Appends the decimal text if 32 bytes are free |
| Logstream.Logstream.PutItems | LALI/base/Logstream.h:60-104 | A line of items leaves exactly those that fitted, each whole |

## Left out

- Formatting and conversion of doubles (`sprintf`, `strtod`): a double is its text, and `fits` stands for the range check.
- `strtol` reading past the end of the string view: the conversion is that of the scanned slice.
- Handlers that return false (`PARSE_USER_STOPPED`): the document and the writer never do.
- Stack depth of the recursion, and overflow of the 32-bit counters `valueCount` and `refCount`.
- Document.Document.Parse: hands the events over after reading instead of during it; the handler never stops the reader, so this makes no difference to either.
- Raw pointers of the document's levels are paths into the tree, and the storage of vectors is not modelled; `DocumentProofs.NoLevelDangles` says why no level points into storage that moves.
- ValueStore.Values.SetNewBlock: the characters of a string block are not modelled; a block has values only.
- ValueStore.StepKeeps: a value that is being destroyed counts as gone at once, while in the source its slot keeps the old bits until it is written; no block that holds such a slot is freed meanwhile (`ValueStore.TargetSurvives`).
- `PrettyWriter`, file streams, `operator[]`'s assertion, and the other getters and setters of `Value`.
- RpcSpec.BatchStopsAtFirstBad: what the procedures of a batch answer, and when, is modelled apart, in `BatchResponse.dfy`.
- The type of an exception (a string or an object) and who catches it: only its message is modelled.
- Rpc.EndToEnd: starts with empty buffers and one frame each way (`Framing.FrameTakesAll` says what a second one behind it does), for trees without doubles whose keys are plain and distinct (`RoundTripExact.RoundTripExactly` says what others do), and before the 64-bit id overflows.
- Rpc.TreeCrosses: at the client, for trees that are not an integer; a response is an object or an array.
- RpcSpec.ResponseReaches: an array of three elements as a response fails an assertion in `findMember`, which is shown as one more error.
- Response callbacks that call `sendCall` while a response is handled.
- The stub generator, `addService` and the registration of procedures: the registry is given.
- HttpContext.HttpContext.ParseRequest: a method here must end, so it is stated for the two phases in which the loop does (`HttpSpec.TerminatesIff`); the receive time is left out.
- `HttpServer` makes a new context for every message, so it does not use the parser's ability to resume; responses and `HttpServer` itself are not modelled.
- `Buffer::shrink`, which does not reset the indices, and `swap`.
- Buffer.Buffer.FindCRLF: the variant that starts at a given place is not modelled.
- EventLoop.NoLostWakeup: `quit`, a second call of `loop()` and the poll timeout are not modelled; in the loop's own thread `runInLoop` calls directly and is no step.
- AsyncLogging.RunsAreSound: a buffer is a value owned by one pointer, the rolling of log files is not modelled, and what is still buffered when the thread stops stays there.
- TimerQueue.SetAndTimerfdAgree: one clock that never goes back stands for both the real-time and the monotonic one, and an interval is a real number.
- TcpConnection.EverySendStreams: the output buffer is a string here, its array being modelled in `Buffer.dfy`; high-water and write-complete callbacks, reading and errors are left out.
- Channel::disableAll: its new mask is computed and dropped, so it is an update and nothing is claimed about clearing interest.
- Poller.RunAgrees: closing a descriptor, which also removes it from the kernel's set, and the dispatch of events are not modelled.
- Logstream.Convert: the conversion of doubles and pointers is left out.
- `Socket`, `Acceptor`, `Connector`, `TcpServer`, `TcpClient`, `AddressOps`, `LogFile`, `FileUtil` and the formatting of timestamps: system calls and plumbing.
- `BlockingQueue`, `CountDownLatch`, `ThreadPool`, `Singleton`, `ThreadLocal`: thin wrappers; `BoundBlockingQueue` does not compile as written.
