# Verified model of the iocpframework

This project models the parts of the framework and its sample programs that carry real protocol or format logic, and
proves properties of them that hold for every input, every run or every reachable state.

| files | what they model |
|---|---|
| `EchoCore`, `EchoInvariant`, `EchoServer`, `EchoClient`, `EchoListener`, `ClosedLoop`, `Capacity`, `Liveness` | the double-buffered ping-pong programs: a session's two buffers and counters, its teardown, the server's accept loop, and one client and one server joined by two bounded channels |
| `FrameDecoder`, `MultiBufferDecoder` | the streaming decoder of length-prefixed messages |
| `HttpParser`, `HttpGrammar`, `HttpComplete`, `HttpSound`, `HttpUnambiguous`, `HttpCanonical`, `HttpViable`, `HttpVersion`, `HttpObjects` | the HTTP/1.0 request parser and the reply's header printer |
| `ObjectPool`, `CallbackStorage` | the object pool, and the life of completion callbacks in an allocator with one inline slot |
| `Serializer`, `SerializerObjects` | the binary serialiser over a memory buffer |
| `Octets`, `LittleEndian` | bytes and 32-bit numbers |

Objects that the source updates in place are classes whose methods are proved equal, field by field, to functions on
values (`Value()`, `Current()`); the theorems are about those functions and the machines they make up.

## The ping-pong protocol

A session keeps two buffers. A write in flight is drained from memory a few bytes at a time, and a completed read
overwrites the front of a buffer, so a read that landed in a buffer still being drained would corrupt the stream. Reads
and writes complete in any order, with any number of bytes, and may fail at any moment. The strand runs one handler at
a time, so a completion and its handler are one step. A successful read brings between one byte and a block.

The four logs of a session (`seed`, `got`, `submitted`, `sent`) tie memory to streams; everything else follows from the
invariant that what was submitted, followed by the block held back, is what the session produced and read. Three results
are worth pointing out. What the client reads is a prefix of its own first block followed by what it reads, hence
periodic. A healthy loop can always move exactly when both channels can hold a byte and the block is smaller than their
capacities together plus four: the bound comes out of the conservation law, and a run that jams is constructed otherwise.
And however the steps are scheduled, as long as nothing fails the client reads again within 6B + 4 of them.

## The decoder

A chunk of fewer than four bytes that arrives while part of a header is held overwrites that part. Agreement with
parsing the whole byte string at once is therefore false in general; it is proved to hold exactly for the splittings in
which no such chunk occurs, a condition on the input alone (`Safe`), with a concrete splitting that loses a message.

## The HTTP parser

The grammar is the Full-Request of section 5 of RFC 1945 as the code narrows it. It is given as syntax trees and their
printing, and proved to be unambiguous and to be exactly the accepted language. `char` is signed, so octets from 128 up
are negative: allowed in URIs and values, not in tokens. `Reset` does not clear the request, so the theorems start from
an empty one. The parser never refuses an input that could still be completed, and never asks for more when it could
not. In every reachable state the request holds exactly the parts of the request line read so far. The version
arithmetic is over unbounded integers, together with the exact condition, on arbitrary input, under which the code's
`int` arithmetic does not leave its range.

## The serialiser

The two cursors share one check-and-copy primitive each (serialize_out.hpp and serialize_in.hpp). Sizes, positions,
sums and products are 32 bits wide, as on the Win32 target of the project files, so the checks are not always right. If
a product wraps, the code reads fewer bytes than were announced, inside the buffer, and goes on; if a sum wraps, it reads
outside the buffer. Both are outcomes of the model, each has a concrete input, and the inputs for which some check is
wrong are described exactly, by walking over the announced counts with unbounded arithmetic.

## Model

| member | source | states |
|---|---|---|
| EchoInvariant.StepKeepsInv | performance/pingpong/asio_pingpong/server.hpp:67-124 | every completion, partial write or failure keeps the protocol invariant: which operations are in flight on which buffer for each counter value, and how the byte logs relate |
| EchoInvariant.SwapsOnlyWhenQuiet | performance/pingpong/asio_pingpong/server.hpp:73-90 | the buffers are swapped only when the completing operation was the only one in flight and nothing failed before; afterwards the new read and write use opposite buffers |
| EchoInvariant.NothingStartsAfterFailure | performance/pingpong/asio_pingpong/server.hpp:71-124 | after a failed completion no operation starts: each completion only takes one away, and at most one is left |
| EchoServer.Session.constructor | performance/pingpong/asio_pingpong/server.hpp:22-33 | a new session has two distinct buffers of the block size, counters at zero and nothing in flight |
| EchoServer.Session.Start | performance/pingpong/asio_pingpong/server.hpp:46-65 | counts and issues the first read, or posts the destruction if the option failed |
| EchoServer.Session.SwapAndIssue | performance/pingpong/asio_pingpong/server.hpp:78-89 | swaps the buffer pointers, writes the block just read and starts the next read into the other buffer |
| EchoServer.Session.HandleRead | performance/pingpong/asio_pingpong/server.hpp:67-95 | the object's whole new state after a read completes or fails |
| EchoServer.Session.HandleWrite | performance/pingpong/asio_pingpong/server.hpp:97-124 | the object's whole new state after a write completes or fails |
| EchoServer.Session.Perform | performance/pingpong/asio_pingpong/server.hpp:67-124 | the socket fills a buffer, drains one or ends an operation, and the handler runs: together one step of the machine |
| EchoServer.Session.Serve | performance/pingpong/asio_pingpong/server.hpp:46-129 | a whole run of the object follows the machine; sent is a prefix of submitted, submitted of read, and destruction is posted once, exactly when nothing is outstanding |
| EchoServer.ServerStepKeepsInv | performance/pingpong/asio_pingpong/server.hpp:67-124 | each step keeps the operation count equal to the operations in flight, and posts the destruction exactly when a failed session has none left |
| EchoServer.ServerEchoes | performance/pingpong/asio_pingpong/server.hpp:67-124 | in every run, failures included, sent is a prefix of submitted, submitted of read, and bytes read are submitted bytes plus at most one held block |
| EchoServer.ServerBuffersAreExclusive | performance/pingpong/asio_pingpong/server.hpp:73-90 | the exclusivity of buffers and operations in every reachable state of a session |
| EchoServer.TeardownExactlyOnce | performance/pingpong/asio_pingpong/server.hpp:46-129 | in every run the count is exact, `destroy` is posted at most once, exactly when nothing is in flight, and then no completion can arrive |
| EchoServer.WindsDownAfterFailure | performance/pingpong/asio_pingpong/server.hpp:67-124 | from any failed state: at most one more completion, nothing more submitted, destruction posted exactly with the last completion |
| EchoServer.FailureEndsTheSession | performance/pingpong/asio_pingpong/server.hpp:67-124 | over whole runs: after the first failed completion at most one more completion follows and the session is posted for destruction when nothing is in flight |
| EchoServer.RunReads | performance/pingpong/asio_pingpong/server.hpp:67-95 | in every run a session gets the bytes its reads bring, all of them and nothing else |
| EchoListener.EchoServerObject.constructor | performance/pingpong/asio_pingpong/server.hpp:148-163 | the server starts with one new session object, waiting in the acceptor |
| EchoListener.EchoServerObject.HandleAccept | performance/pingpong/asio_pingpong/server.hpp:165-179 | success starts the waiting session object and allocates the next one, sharing no buffer with any other; an error deletes the waiting session |
| EchoListener.EchoServerObject.HandleIo | performance/pingpong/asio_pingpong/server.hpp:67-124 | a step of one session object leaves every other session and its buffers as they were, and queues the session if it posted its destruction |
| EchoListener.EchoServerObject.RunDestroy | performance/pingpong/asio_pingpong/server.hpp:126-129 | a posted session is deleted and leaves the queue |
| EchoListener.OwnedExactlyOnce | performance/pingpong/asio_pingpong/server.hpp:159-179 | at every point of every run each allocated session has exactly one owner (acceptor, its own operations, destruction queue, deleted), so none is deleted twice and no completion reaches a queued or deleted one |
| EchoListener.OneSessionWaits | performance/pingpong/asio_pingpong/server.hpp:165-179 | exactly one session waits in the acceptor until an accept fails, and none afterwards |
| EchoListener.StepMoves | performance/pingpong/asio_pingpong/server.hpp:126-179 | every event moves the one session it is about from the owner it had to the owner it should have, and changes no other; an accepted session is started as `set_option` went and a new one waits |
| EchoListener.SessionHistory | performance/pingpong/asio_pingpong/server.hpp:46-179 | at every point of every run of the server, an accepted session is where a run of that session alone would be: started, and then exactly the steps addressed to it |
| EchoListener.EverySessionEchoes | performance/pingpong/asio_pingpong/server.hpp:46-179 | every session of the server echoes what its own reads brought, one block behind at most; it is running while operations are in flight and queued or deleted from then on |
| EchoClient.Session.constructor | performance/pingpong/asio_pingpong/client.hpp:66-81 | the send buffer holds i mod 128 at position i; counters are zero |
| EchoClient.Session.HandleConnect | performance/pingpong/asio_pingpong/client.hpp:105-129 | submits the whole initial block and starts the first read, unless setting the option failed |
| EchoClient.Session.HandleRead | performance/pingpong/asio_pingpong/client.hpp:140-166 | the object's whole new state after a read, byte and message counters included |
| EchoClient.Session.HandleWrite | performance/pingpong/asio_pingpong/client.hpp:168-192 | the object's whole new state after a write; an error or an empty write changes nothing |
| EchoClient.Session.Perform | performance/pingpong/asio_pingpong/client.hpp:140-192 | socket and handler together are one step of the machine |
| EchoClient.Session.Play | performance/pingpong/asio_pingpong/client.hpp:105-192 | a whole run of the object follows the machine: bytes and messages are counted, and what is sent is a prefix of the initial block followed by what was read |
| EchoClient.ClientStepKeepsInv | performance/pingpong/asio_pingpong/client.hpp:140-192 | each step keeps the invariant and the counters, and does what the shared core does |
| EchoClient.ClientAccounts | performance/pingpong/asio_pingpong/client.hpp:140-192 | until a failure, bytes written plus the write in flight plus the held block is the block size plus bytes read, for every block size and order of completions; messages are counted one per read |
| EchoClient.ClientSendsSeedThenEcho | performance/pingpong/asio_pingpong/client.hpp:79-192 | what the client sends is always a prefix of its initial block followed by what it has read |
| EchoClient.FailedOptionEndsIt | performance/pingpong/asio_pingpong/client.hpp:105-129 | a client whose socket option could not be set starts and submits nothing, and nothing happens to it again |
| ClosedLoop.StepKeepsLoopInv | performance/pingpong/asio_pingpong/client.hpp:105-192 | every step of either end keeps both sessions' invariants and both channels in line with the logs at their ends |
| ClosedLoop.ClosedLoopContent | performance/pingpong/asio_pingpong/client.hpp:79-192 | for all block sizes, interleavings, fragmentations and failures, the k-th byte the client reads is (k mod B) mod 128 |
| ClosedLoop.ClosedLoopConservation | performance/pingpong/asio_pingpong/server.hpp:67-124 | until a failure exactly B bytes exist across unsent write remainders, held blocks and both channels |
| ClosedLoop.EndsStart | performance/pingpong/asio_pingpong/client.hpp:105-129 | what connecting and accepting start, with the option set and without |
| ClosedLoop.ClientIsASession | performance/pingpong/asio_pingpong/client.hpp:140-192 | once connected, the client in the loop makes exactly the steps addressed to it, as it would on its own |
| ClosedLoop.ServerIsASession | performance/pingpong/asio_pingpong/server.hpp:67-124 | once it has accepted, so does the server |
| Capacity.NeverJams | performance/pingpong/asio_pingpong/server.hpp:67-124 | with B < capUp + capDown + 4 every reachable healthy state has an enabled step |
| Capacity.CanJam | performance/pingpong/asio_pingpong/server.hpp:67-124 | for every larger B, a failure-free run that ends with no enabled step |
| Capacity.ProgressIffRoom | performance/pingpong/asio_pingpong/server.hpp:67-124 | for all capacities, the loop never jams if and only if both channels can hold a byte and B < capUp + capDown + 4 |
| Liveness.StepIsCloser | performance/pingpong/asio_pingpong/client.hpp:140-192 | every step of a healthy loop that is neither a failure nor a read by the client shortens the distance the bytes have to go |
| Liveness.ClientKeepsReading | performance/pingpong/asio_pingpong/client.hpp:140-192 | whatever the schedule, a failure-free run has at most 6B + 4 steps for each read by the client, plus as many at the start |
| MultiBufferDecoder.Decoder.constructor | test/read_write_test/read_write_test/multi_msg_decoder.hpp:36-40 | a new decoder holds nothing and has delivered nothing |
| MultiBufferDecoder.Decoder.TakeHeader | test/read_write_test/read_write_test/multi_msg_decoder.hpp:53-70 | the announced length is that of the held header bytes completed from the chunk, and how many bytes that took |
| MultiBufferDecoder.Decoder.FillBody | test/read_write_test/read_write_test/multi_msg_decoder.hpp:97-108 | a partial message is extended, and delivered and cleared exactly when it is whole |
| MultiBufferDecoder.Decoder.Handle | test/read_write_test/read_write_test/multi_msg_decoder.hpp:42-114 | the new state and the messages delivered are those of the specification, for every state and chunk; nested calls terminate |
| FrameDecoder.HandleAgrees | test/read_write_test/read_write_test/multi_msg_decoder.hpp:42-114 | unless a short chunk meets a held header, one call agrees with parsing held bytes and chunk together |
| FrameDecoder.BytesAccountedFor | test/read_write_test/read_write_test/multi_msg_decoder.hpp:42-114 | for every sequence of chunks, encoded deliveries plus held bytes plus overwritten bytes is the length of the input |
| FrameDecoder.ConservesIffSafe | test/read_write_test/read_write_test/multi_msg_decoder.hpp:44-113 | encoded deliveries followed by held bytes equal the input exactly on the safe splittings; the held part never contains a whole message |
| FrameDecoder.AgreesIffSafe | test/read_write_test/read_write_test/multi_msg_decoder.hpp:44-113 | deliveries and state equal the whole-string parse exactly on the safe splittings |
| FrameDecoder.RoundTrip | test/read_write_test/read_write_test/multi_msg_decoder.hpp:44-113 | every safe splitting of encoded messages, empty ones included, delivers exactly those messages in order and ends idle |
| FrameDecoder.ChunkingIndependent | test/read_write_test/read_write_test/multi_msg_decoder.hpp:44-113 | two safe splittings of the same bytes give the same deliveries and state |
| FrameDecoder.WireFormat | test/read_write_test/read_write_test/multi_msg_decoder.hpp:53-80 | four bytes that spell a message's length, least significant first, and then the message, deliver exactly that message |
| FrameDecoder.Overwritten | test/read_write_test/read_write_test/multi_msg_decoder.hpp:46-51 | a chunk of fewer than four bytes replaces whatever part of a header is held |
| LittleEndian.ByteOrder | test/read_write_test/read_write_test/multi_msg_decoder.hpp:53-70 | the value of the four bytes by their weights, and each byte as a digit to base 256 |
| LittleEndian.ByteOrderOf | include/serialize/detail/dispatch.hpp:13-18 | the four bytes a length is written as are its digits to base 256, the least significant first |
| FrameDecoder.SplitHeaderLosesMessage | test/read_write_test/read_write_test/multi_msg_decoder.hpp:46-51 | a concrete splitting inside a header after which the message is not delivered |
| HttpParser.Consume | Example/Network/Http/Http/RequestParser.cpp:191-272 | whenever `headers.back()` could be used there is a header, and the next state keeps it so |
| HttpParser.UriStartUnreached | Example/Network/Http/Http/RequestParser.cpp:36-62 | no run that does not start in `uri_start` reaches it |
| HttpParser.ParseConcat | Example/Network/Http/Http/RequestParser.cpp:21-288 | feeding an input in two parts is feeding it at once, and a verdict is final |
| HttpParser.AcceptedIsPrefixFree | Example/Network/Http/Http/RequestParser.cpp:283-284 | no accepted input is a proper prefix of another |
| HttpGrammar.Alphabet | Example/Network/Http/Http/RequestParser.cpp:290-317 | the characters of tokens, texts, blanks, digits, the protocol name, the separator and the line end, spelt out |
| HttpComplete.PrintedIsAccepted | Example/Network/Http/Http/RequestParser.cpp:21-288 | every printed well-formed tree is accepted at its last character with its meaning as the request |
| HttpSound.AcceptedIsPrinted | Example/Network/Http/Http/RequestParser.cpp:21-288 | every accepted input is a printed well-formed tree whose meaning is the parsed request |
| HttpSound.LanguageEquivalence | Example/Network/Http/Http/RequestParser.cpp:21-288 | the parser accepts s with request r if and only if s prints a well-formed tree with meaning r |
| HttpViable.VerdictIsExact | Example/Network/Http/Http/RequestParser.cpp:21-288 | for every input, the parser asks for more exactly as long as some continuation is accepted, says yes exactly if it has seen a whole request, and no exactly if neither is the case |
| HttpViable.EverydayRequest | Example/Network/Http/Http/RequestParser.cpp:21-288 | an ordinary request with a folded header, character by character, and the request it parses to |
| HttpUnambiguous.PrintIsInjective | Example/Network/Http/Http/RequestParser.cpp:21-288 | two well-formed trees that print alike are equal |
| HttpCanonical.ParseOfPrint | Example/Network/Http/Http/Reply.cpp:103-113 | parsing the canonical printing of any well-formed request returns that request |
| HttpCanonical.PrintOfParse | Example/Network/Http/Http/RequestParser.cpp:21-288 | an accepted input is the canonical printing of its parse if and only if its only tree has no folded line and no leading zero in the version |
| HttpCanonical.FoldingIsInvisible | Example/Network/Http/Http/RequestParser.cpp:191-282 | a folded request and its single-line form parse to the same request, continuations joined without their leading blanks |
| HttpVersion.LineSoFar | Example/Network/Http/Http/RequestParser.cpp:23-180 | for every input and every reachable state: the input so far is the parts of a request line that the request holds, and each version number is the decimal value of the digits read so far |
| HttpVersion.NumbersBelowPowers | Example/Network/Http/Http/RequestParser.cpp:129-180 | in every reachable state a version number of which d digits have been read is below 10^d |
| HttpVersion.FitsIff | Example/Network/Http/Http/RequestParser.cpp:129-180 | for every input, accepted or not, the version arithmetic stays within `int` if and only if no version number in it, up to any digit, exceeds INT_MAX - 48 |
| HttpVersion.VersionFitsIff | Example/Network/Http/Http/RequestParser.cpp:129-180 | for complete requests: if and only if both numbers are at most 2147483599 |
| HttpVersion.NineDigitsFit | Example/Network/Http/Http/RequestParser.cpp:129-180 | an input whose version numbers have at most nine digits never leaves the range of `int`, whatever surrounds them |
| HttpVersion.OverflowsAt | Example/Network/Http/Http/RequestParser.cpp:129-180 | major version 2147483600 leaves the range, whatever follows |
| HttpObjects.RequestParser.constructor | Example/Network/Http/Http/RequestParser.cpp:11-14 | a new parser is in `method_start` |
| HttpObjects.RequestParser.Reset | Example/Network/Http/Http/RequestParser.cpp:16-19 | back to `method_start`, touching nothing else |
| HttpObjects.RequestParser.Step | Example/Network/Http/Http/RequestParser.cpp:21-288 | state, request and verdict after one character, in every state |
| HttpObjects.RequestParser.ParseInput | Example/Network/Http/Http/RequestParser.cpp:21-288 | `Parse` (the loop over `Consume` in RequestParser.h) stops at the first verdict, with the state and request of the run |
| HttpObjects.Reply.ToBuffers | Example/Network/Http/Http/Reply.cpp:98-117 | the buffers, joined, are the status line, each header as name, separator, value and line end, a blank line and the content |
| HttpObjects.ReplyHeadersParseBack | Example/Network/Http/Http/Reply.cpp:103-113 | the header block a reply prints is read back by the parser as the same headers |
| ObjectPool.PoolObject.Take | include/utility/object_pool.hpp:19-31 | the front of the queue, or an object that did not exist before if the queue is empty |
| ObjectPool.PoolObject.GetHandle | include/utility/object_pool.hpp:74-86 | one object taken and lent behind a shared handle |
| ObjectPool.PoolObject.Drop | include/utility/object_pool.hpp:81-85 | only the last copy of a handle pushes the object back |
| ObjectPool.PoolObject.AcquireRaw | include/utility/object_pool.hpp:88-95 | one object taken and lent raw |
| ObjectPool.PoolObject.ReleaseRaw | include/utility/object_pool.hpp:97-100 | the object goes to the back of the queue |
| ObjectPool.EachObjectInOnePlace | include/utility/object_pool.hpp:74-100 | at every point of every run each object made is exactly once either queued or lent |
| ObjectPool.MadeIsPeak | include/utility/object_pool.hpp:74-100 | the creator was called exactly as often as the largest number of objects lent at once |
| ObjectPool.LentWhileUsed | include/utility/object_pool.hpp:74-100 | at every point of every run the copies of an object's handle are those handed out and made less those dropped, and the object is in the queue if and only if none is left |
| ObjectPool.QueueIsFifo | include/utility/object_pool.hpp:19-36 | the objects given back, by the last drop or by hand, are those lent again followed by the queue, in order |
| CallbackStorage.HandlerAllocator.AllocateBlock | performance/pingpong/pingpong/handler_allocator.hpp:22-33 | the object's own storage if it is free and the size is below 1024, otherwise a new block; long enough either way |
| CallbackStorage.HandlerAllocator.DeallocateBlock | performance/pingpong/pingpong/handler_allocator.hpp:35-45 | the storage becomes free, or the heap block is released, and nothing else changes |
| CallbackStorage.StepKeeps | include/async_io/service/async_result.hpp:53-106 | issuing, completing and returning keep every live operation's own callback at its address and nothing else anywhere, the allocator exact, and the logs in line |
| CallbackStorage.CallbacksRunOnce | include/async_io/service/async_result.hpp:53-106 | a completion only brings back an address, yet the k-th invocation runs the callback issued with the k-th completed operation; none is invoked or destroyed twice, and exactly the completed ones that have returned are destroyed |
| CallbackStorage.LiveCallbacksKeepTheirStorage | include/async_io/service/async_result.hpp:53-106 | live operations never share storage, and at the address of each stands its own callback |
| CallbackStorage.InlineSlotIsExact | performance/pingpong/pingpong/handler_allocator.hpp:22-45 | the flag is set exactly when one live callback, and only one, occupies the inline slot |
| CallbackStorage.NothingLeaks | include/async_io/service/async_result.hpp:53-106 | when the port is empty and no handler runs, every callback was invoked and destroyed and neither the slot nor the heap is in use |
| CallbackStorage.EventsExplain | include/async_io/service/async_result.hpp:53-106 | so many operations are issued, the completed ones are invoked in that order, and each return destroys the callback of the innermost handler |
| CallbackStorage.IssuedWhere | performance/pingpong/pingpong/handler_allocator.hpp:22-33 | an issued operation is with the port and its callback at its address, which is the inline slot if and only if it is smaller than 1024 bytes and no live callback has the slot |
| Serializer.CheckIsExact | include/serialize/detail/serialize_out.hpp:73-115 | what one 32-bit check does for every position and length: a read that lies in the buffer is done in full, and one that does not is let through if and only if its true end lies beyond 2^32 and wraps round into the buffer |
| Serializer.ProductWraps | include/serialize/detail/dispatch.hpp:88-107 | announcing 2^31 wide characters pops an empty text and goes on |
| Serializer.SumWraps | include/serialize/detail/dispatch.hpp:70-86 | announcing 2^32 - 1 characters reads outside the buffer and leaves the cursor at three |
| Serializer.WireSizes | include/serialize/detail/dispatch.hpp:198-277 | what each type takes on the wire |
| Serializer.EncodeParts | include/serialize/detail/dispatch.hpp:198-277 | a scalar is its bytes, a string its count and its characters, a pointer what it points to |
| Serializer.EncodeCons | include/serialize/detail/dispatch.hpp:198-223 | an array is its elements one after another |
| Serializer.TextOnTheWire | include/serialize/detail/dispatch.hpp:241-261 | two values byte by byte |
| Serializer.PopEndsWhere | include/serialize/detail/dispatch.hpp:198-277 | for every type and buffer: whether popping succeeds, throws or reads outside, and the cursor it leaves, by the announced counts alone |
| Serializer.WrongIffFirstSlips | include/serialize/detail/dispatch.hpp:198-277 | some check lets through what it should not if and only if the first announced count that is too long wraps round into the buffer; otherwise popping does what unbounded arithmetic would |
| Serializer.PopsWhatWasPushed | include/serialize/detail/dispatch.hpp:198-277 | a value whose encoding lies at the cursor is popped unchanged and the cursor advances by exactly the encoded length |
| Serializer.PoppedWasEncoded | include/serialize/detail/dispatch.hpp:198-277 | whatever is popped fits its type as far as 32-bit lengths tell, and its encoding is the bytes passed over |
| Serializer.PopIsExact | include/serialize/detail/dispatch.hpp:198-277 | for all inputs, popping returns v and stops at `end` if and only if v fits in 32-bit lengths and its encoding is what lies there |
| Serializer.EncodingIsUnambiguous | include/serialize/detail/dispatch.hpp:198-277 | a buffer holds at most one value of a type at a position |
| Serializer.StreamRoundTrip | include/serialize/detail/dispatch.hpp:198-277 | values pushed one after another are popped one after another |
| Serializer.FixedArrayPops | include/serialize/detail/dispatch.hpp:143-160 | a terminated `char[N]` is popped as its text and the bytes that follow it, with the cursor N - length too far, or not at all |
| Serializer.FixedArrayRoundTripIff | include/serialize/detail/dispatch.hpp:143-160 | its text is recovered if and only if N characters are there and a zero happens to follow the text |
| Serializer.PushIsExact | include/serialize/detail/dispatch.hpp:198-277 | pushing puts the encoding into the buffer if it fits; otherwise what precedes the first piece that does not fit, and throws there, unless that piece's length wraps round into the buffer, which is exactly when a check lets it through |
| Serializer.PushThenPop | include/serialize/detail/dispatch.hpp:198-277 | what was pushed where there was room is popped from there |
| SerializerObjects.BinaryIn.Push | include/serialize/detail/dispatch.hpp:198-277 | buffer, cursor and status after pushing any value, for every buffer and cursor |
| SerializerObjects.BinaryOut.PopBytes | include/serialize/detail/serialize_out.hpp:73-115 | result and cursor of every read, wrapped ones included |
| SerializerObjects.BinaryOut.PopValue | include/serialize/detail/dispatch.hpp:198-277 | result and cursor after popping any type from any buffer |

## Left out

- Threads, memory ordering and the strand's internals: each handler, together with the completion that triggers it, is one step.
- Endpoint resolution, connecting to the next endpoint after an error, timers, statistics, printing and argument parsing in the ping-pong programs.
- HttpParser.Consume: version numbers are unbounded; HttpVersion.FitsIff says exactly when the code's `int` agrees.
- EchoListener.OwnedExactlyOnce: a session's address is its position in the list of all sessions ever allocated, so the reuse of an address after a deletion is not modelled.
- CallbackStorage.CallbacksRunOnce: that the completion port reports each issued operation once is an assumption about the operating system.
- SerializerObjects.BinaryOut.PopValue: after a read outside the buffer only the cursor is known, and running out of memory when a string is resized to the announced count is not modelled.
- Containers (include/serialize/detail/container_dispatch.hpp), the text format, `wchar_t[N]` arrays and files in the serialiser.
- Reply status lines and stock replies, MIME types and the request handler of the HTTP example: finite tables.
- Concurrent use of the object pool and `for_each` and `size` on it.
- The Windows and Winsock wrappers, the thread pools, timers, file monitor and unicode helpers: thin calls into the platform.
- The ping-pong programs built on the framework's own sockets (performance/pingpong/pingpong), whose client keeps two reads on one buffer.
