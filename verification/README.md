# The FastCGI server stream engine, modelled and proved

This project models the server side of `dmitigr::fcgi`: the stream buffer that takes apart and
puts together FastCGI records, the name-value codec, the connection with its three streams over
one descriptor, and the listener that accepts it. The format is that of the FastCGI
Specification 1.0, sections 3.3, 3.4, 5.1 to 5.3, 5.5 and 6.2 to 6.4.

`dafny verify dfyconfig.toml` checks everything.

## How it is built

* `Basics`, `Arithmetic`, `Alignment` - bytes; division facts; `src/math/alignment.hpp` on words
  of any width, with the bitwise operators defined bit by bit.
* `Records`, `NamesValues` - headers, record framing, end-request bodies; name-value pairs and
  what the parser accepts.
* `Input`, `InputRuns` - the specification of a reader. `Demux` reads whole records from the bytes
  still to come; `Pulled` says what one call of `underflow` may do; a `View` is what the user of the
  buffer sees, and `Draw` takes one character from it. Nothing in a `View` depends on how the
  transport splits the bytes, so a contract stated with it holds for every split.
* `Output`, `Sessions` - the specification of a writer, and whole runs of an application on `out`
  and `err`, from any state of the two and with buffers replaced at any time.
* `Transport`, `BaseConnection`, `StreamBuffers`, `Parameters`, `Connections` - the classes. `Streambuf` has
  the fields of `server_Streambuf`, with the get and put pointers as indices into its array, and its
  methods are proved against the specifications. A descriptor's read returns any positive number
  of bytes up to the length asked for, and zero once the peer has shut down; `history` lists the reads
  with what they asked for and got, so that contracts can say which outcomes come of short reads.
* `Applications`, `Lives` - what an application does with a connection: reading, writing, closing;
  and its whole life, with all of these and the application status in any order, before and after a
  read that fails.
* `Requests` - theorems across a whole request.
* `Format` - the same in numbers: what lies where in headers and bodies, the codes of record types,
  roles and protocol statuses, and the bytes a writer sends, byte by byte.

Exceptions, failed `DMITIGR_ASSERT`s (which end the process) and a loop that never ends are
outcomes of the model: `Threw`, `Aborted`, `Spins`, and `Refused` and `Failed` for `close` and
`setbuf`. Assertions that cannot fail are `assert` statements in the methods or part of their contracts.
`Reading` and `Writing` contain `InvariantOk`, the predicate `is_invariant_ok`, so every method that
returns a usable stream re-establishes it. The statements of `underflow`'s loop are grouped into
methods (`Refill`, `TakeDue`, `Accumulate`, `Dispatch` and those they call) in source order. An
exception out of a read is caught by the stream that drives the buffer: the application goes on, and
that stream asks for no more characters.

## Where the code does less than it says

* Records of another request, and a further BEGIN_REQUEST, are meant to be discarded. The count of
  header bytes is not reset after the first complete header, so the same header is processed again:
  no byte behind it is ever delivered, and the call throws, or spins if the record has neither
  content nor padding (`InputRuns.ForeignNeverPassed`, `StreamBuffers.Streambuf.MoreTurns`). The
  rejection of a further BEGIN_REQUEST is written again each time: once, and once more for every time
  that its content and padding fit into the bytes behind it (`StreamBuffers.Streambuf.Underflow`).
* Such a rejection, and that of a record of the wrong type, is an END_REQUEST. It does not end the
  life of the connection: the two output streams go on, and the close sends a second END_REQUEST for
  the same request. It is the only one exactly if no read has met a record of the wrong type, or a
  further BEGIN_REQUEST, of that request (`Lives.WholeLife`, `Lives.SecondEnd`; an input:
  `Requests.SecondEndExample`).
* A record with more content than the reader's buffer is legal but fails the assertion at the end
  of `process_header` (`Input.OversizedRecordAborts`); among the parameters it ends the process inside
  `accept`, which `Connections.Accept` reports as `NoParameters(Aborted)`. The exception for a record
  of the wrong type comes before that assertion and leaves such a length behind; closing the reader
  then fails its assertion. It does so exactly behind a record of that kind (`Connections.ReadAndClose`,
  `Applications.GetAndClose`, `Requests.WrongTypeOverlong`; an input: `Requests.OverlongExample`).
* `reset_reader` forgets the padding of a terminating record instead of skipping it; the next stream
  is read correctly exactly when there is none (`InputRuns.HandOffNeedsNoPadding`). The padding of
  BEGIN_REQUEST is likewise not skipped: `Connections.Accept` reads parameters from byte 16 on.
* The guard in `close` that a Filter has read its standard input only sees what is due of the record
  under way (`Requests.FilterMayCloseUnread`); a Filter that was just accepted may close with all of
  it unread (`Requests.CloseUnread`).
* `setbuf` is documented to refuse while data is pending. For an output stream it never does, and
  what is held is lost: a run with setbufs in it sends or holds all it was given exactly when nothing
  is held at any of them (`Sessions.SetbufForgets`). For an input stream it refuses exactly when the
  get area does not start at the buffer's first byte, whether or not anything is buffered
  (`StreamBuffers.Streambuf.Setbuf`), and otherwise drops what is (`Requests.SetbufDropsInput`); its
  assertion then fails exactly when more content is due than the new buffer holds, which happens in
  the middle of a record (`Requests.ShrinkMidRecord`; an input: `Requests.ShrinkExample`).
* `overflow` ignores its character when the put area is empty (`Sessions.OverflowNeedsHeld`); no run
  of the put operations gets there, since each of them keeps every byte (`Sessions.RunIsFaithful`).
* `is_power_of_two` accepts zero (`Alignment.GuardAcceptsPowersAndZero`).
* `request_rejected` is a result that `process_header` documents but never returns.

## Model

| member | source | states |
|---|---|---|
| Alignment.PowerOfTwoIff | src/math/alignment.hpp:25-29 | among positive numbers n & (n - 1) is zero exactly for the powers of two |
| Alignment.GuardAcceptsPowersAndZero | src/math/alignment.hpp:25-29 | on words of any width the guard accepts the powers of two and zero, so it means what its name says exactly for non-zero arguments |
| Alignment.PaddingIsLeast | src/math/alignment.hpp:40-49 | for every word and power of two the masked difference is the least amount that brings the value to a multiple |
| Alignment.AlignedIsValuePlusPadding | src/math/alignment.hpp:57-66 | aligned is value plus padding modulo the word, and equals that sum exactly when the sum fits the word |
| Alignment.RoundDownTo8 | src/fcgi/streambuf.cpp:175-177 | the size expression of setbuf is the largest multiple of 8 not above the size given |
| Records.HeaderRoundTrip | src/fcgi/basics.cpp:129-172 | constructing a header, laying it out and reading it back gives type, id and lengths again over their whole ranges |
| Records.StatusRoundTrip | src/fcgi/basics.cpp:255-266 | every 32-bit signed application status, negative ones too, is recovered from the four shifted bytes |
| Records.EndRequestBytes | src/fcgi/basics.cpp:255-294 | the 16 bytes of END_REQUEST in numbers: protocol status 0 for a normal end, 1 where requests are not multiplexed, 2 overloaded, 3 for an unknown role |
| Records.DecodeEncode | src/fcgi/basics.cpp:129-172 | the bytes of any list of valid records cut back into exactly those records |
| Records.EncodeInjective | src/fcgi/basics.cpp:195-203 | two lists of valid records with the same bytes are the same list |
| NamesValues.ParseEncode | src/fcgi/basics.cpp:379-426 | decoding any legal encoding of pairs, with minimal or four-byte lengths, gives the pairs in order |
| NamesValues.ParseSound | src/fcgi/basics.cpp:385-425 | whatever the parser accepts is the encoding of the pairs it returns |
| NamesValues.ParsesExactlyEncodings | src/fcgi/basics.cpp:385-425 | the parser succeeds exactly on concatenations of complete pairs |
| NamesValues.EncodingUnique | src/fcgi/basics.cpp:370-377 | the decomposition into pairs and length forms is unique |
| NamesValues.TruncationRejected | src/fcgi/basics.cpp:396-409 | a cut encoding is accepted exactly when cut between pairs |
| NamesValues.WideLength | src/fcgi/basics.cpp:393-394 | a four-byte length is never negative, so never the eof marker, and below 2^31 |
| NamesValues.PairIndex | src/fcgi/basics.cpp:435-444 | finds the first pair of a name, and none exactly if no pair has it |
| BaseConnection.ServerConnection.Parameter | src/fcgi/server_connection.cpp:70-76 | the value of the first parameter of that name, and none exactly if there is no such parameter |
| Input.DemuxStream | src/fcgi/streambuf.cpp:263-305 | own records and an empty one, with any padding, deliver the concatenated contents and then the end, whatever follows |
| Input.DemuxSound | src/fcgi/streambuf.cpp:213-311 | on any bytes at all, a reader that comes to a deciding header has used whole own records, that header and nothing else, and delivered their contents |
| Input.DemuxComplete | src/fcgi/streambuf.cpp:213-311 | conversely such bytes are read that way, so the bytes used and delivered are characterised exactly |
| Input.PulledRefinesDraw | src/fcgi/streambuf.cpp:204-312 | one underflow, however the reads split the bytes, leaves the view as it was when it exposes content and otherwise gives the outcome the view determines |
| Input.TakeRefinesView | src/fcgi/streambuf.cpp:226-235 | taking exposed bytes takes that many from the front of the view and changes nothing behind them |
| Input.PullConserves | src/fcgi/streambuf.cpp:227-273 | a call passes over old padding and one header and nothing else; the rest of the bytes stay due in order |
| Input.LeftOverlong | src/fcgi/streambuf.cpp:523-530 | an exception leaves more content due than the buffer holds exactly where the view ends at a record of the wrong type that long |
| Input.OversizedRecordAborts | src/fcgi/streambuf.cpp:460-462 | behind any own records a further one fails the invariant assertion exactly when its content exceeds the buffer size |
| InputRuns.FilterRun | src/fcgi/streambuf.cpp:279-302 | over every run a Filter reads all of in, one end of file, all of data, then end of file for ever |
| InputRuns.SinglePhaseRun | src/fcgi/streambuf.cpp:208-209 | any other stream reads all of its content and then end of file for ever |
| InputRuns.CutStream | src/fcgi/streambuf.cpp:213-221 | a stream that the peer cuts off behind any number of bytes delivers exactly the content among them; it comes to its end exactly if the header of its terminator is among them, and otherwise the read fails by an exception |
| InputRuns.PhaseOrder | src/fcgi/streambuf.cpp:148-152 | over every run the stream type changes at most once, only for a Filter and only from in to data |
| InputRuns.HandOffNeedsNoPadding | src/fcgi/streambuf.cpp:645-654 | the next stream is read correctly behind every terminator padding of n bytes exactly when n is zero |
| InputRuns.PhasesDeliver | src/fcgi/streambuf.cpp:645-654 | two streams on the same bytes: the first phase delivers the first and leaves exactly the second for the next phase |
| InputRuns.ForeignNeverPassed | src/fcgi/streambuf.cpp:212-310 | a stream with foreign records of any length comes to its end exactly when it has none; else it delivers what precedes the first, and the call ends the process, throws or never returns, depending on its lengths |
| Output.FrameFits | src/fcgi/streambuf.cpp:323-363 | with anything the put area holds and the extra character the padded record stays in the buffer, is a multiple of 8 and its content fits 16 bits |
| Sessions.OverflowNeedsHeld | src/fcgi/streambuf.cpp:324-340 | overflow keeps its character exactly when the put area is not empty |
| Sessions.SetbufForgets | src/fcgi/streambuf.cpp:171-191 | over every run with any setbufs in it, what a stream has sent and still holds is all it held at first and was given since exactly when nothing is held at any setbuf on it |
| Sessions.RunIsFaithful | src/fcgi/streambuf.cpp:314-364 | after every run of puts, bulk writes, flushes and setbufs, in any interleaving and from any state of the writers, each stream has sent framed records of the bytes it keeps, in order, and holds the others |
| Sessions.FlushSends | src/fcgi/streambuf.cpp:198-202 | behind any run and a flush nothing is held on that stream and the contents of its records are all that it keeps; at most one record was added, and the other stream is as it was |
| Sessions.UnflushedIsFull | src/fcgi/streambuf.cpp:184-191 | without flushes and setbufs every record of a stream fills its buffer but for the header |
| Sessions.WireByStream | src/fcgi/streambuf.cpp:366-391 | after the close the records of each stream are the bytes it keeps, in order, and one empty record, for err exactly if it sent before or keeps any byte |
| Sessions.WireSafety | src/fcgi/server_connection_stacked.cpp:86-92 | the whole wire is records of the request's two streams, then one END_REQUEST with the status; the bytes determine the records |
| Sessions.NoEarlyEnd | src/fcgi/streambuf.cpp:324-363 | no empty record is sent before the close, however many empty flushes |
| Sessions.ReaderUndoesWriter | src/fcgi/streambuf.cpp:343-362 | the out records relabelled for a reader of sufficient buffer deliver exactly the bytes that out keeps, then the end |
| StreamBuffers.Streambuf.constructor | src/fcgi/streambuf.cpp:76-86 | a new buffer satisfies the invariant, empty and ready to read or write |
| StreamBuffers.Streambuf.Setbuf | src/fcgi/streambuf.cpp:166-196 | when it refuses, what it installs otherwise, for a reader the input state it leaves; the assertion of an open reader fails exactly when more content is due than the new buffer holds |
| StreamBuffers.Streambuf.ProcessHeader | src/fcgi/streambuf.cpp:523-637 | result, reply and failing assertion for every header but those of management records, and the lengths left due in all cases: those of the header if its version is valid, else the old ones |
| StreamBuffers.Streambuf.Underflow | src/fcgi/streambuf.cpp:204-312 | refines Pulled, which includes what an exception leaves due; keeps the invariant; exposes all of the content at hand; writes exactly the replies to the header it comes to, for a further BEGIN_REQUEST one and one more for each time its lengths fit into the bytes behind it; each read asks for the whole buffer; reads at most padding + 9 times unless it meets a foreign record, never more than once per byte to come and once more, and not at all behind the end; where the source loops for ever it ends with Spins, in a state that a further turn reproduces |
| StreamBuffers.Streambuf.OneMoreTurn | src/fcgi/streambuf.cpp:263-308 | in the state in which Underflow reports an endless loop, one more turn changes nothing but repeats the reply |
| StreamBuffers.Streambuf.MoreTurns | src/fcgi/streambuf.cpp:263-308 | however many turns follow, the state stays, nothing is read, and the reply is written that many times |
| StreamBuffers.Streambuf.ResetReader | src/fcgi/streambuf.cpp:645-654 | the reader's new state; the buffered bytes stay |
| StreamBuffers.Streambuf.Sbumpc | src/fcgi/streambuf.cpp:204-312 | taking a character gives the outcome and the view that Draw determines from the bytes alone |
| StreamBuffers.Streambuf.Xsgetn | src/fcgi/streambuf.cpp:204-312 | taking n bytes gives the next n of the view, or all that are left and how it ended |
| StreamBuffers.Streambuf.SendPutArea | src/fcgi/streambuf.cpp:324-362 | the bytes written are header, held bytes with the extra one, and padding, framed in place; Format.FrameBytes gives them in numbers |
| StreamBuffers.Streambuf.SendEndRecords | src/fcgi/streambuf.cpp:366-415 | the bytes written are the empty record where due and, for out, the end of the request with status request_complete, which Format.CloseBytes gives in numbers |
| StreamBuffers.Streambuf.Overflow | src/fcgi/streambuf.cpp:314-420 | the records sent, the writer left and the flags, with and without a character and end records |
| StreamBuffers.Streambuf.Sync | src/fcgi/streambuf.cpp:198-202 | a flush sends what is held and succeeds |
| StreamBuffers.Streambuf.Sputc | src/fcgi/streambuf.cpp:184-191 | putting a character stores it or sends a full record with it |
| StreamBuffers.Streambuf.Xsputn | src/fcgi/streambuf.cpp:184-191 | a bulk write has the effect of putting its bytes one by one |
| StreamBuffers.Streambuf.Close | src/fcgi/streambuf.cpp:100-126 | a writer is refused with nothing changed or closed with exactly the closing records; a closed stream sends nothing; a reader is closed, its assertion failing exactly if more content is due than its buffer holds, which Connections.ReadAndClose traces to the bytes |
| Parameters.ReadPairs | src/fcgi/basics.cpp:379-426 | reads to a clean end exactly if the content is complete pairs and the stream ends there, and returns those pairs; else fails in the way, and with the reply, that the bytes call for |
| Parameters.FailureKinds | src/fcgi/streams.cpp:43-46 | a failure of the parameters is never a byte or an end of file; it ends the process, never returns or stops exactly at an overlong, an empty foreign or a management record, respectively, where no two lengths were refused before, and is an exception otherwise |
| Connections.ReadAndClose | src/fcgi/streambuf.cpp:100-126 | closing a reader after a call that returned or threw: the assertion fails exactly behind a record of the wrong type whose content is longer than the buffer |
| Connections.OpenInput | src/fcgi/streams.cpp:36-54 | the parameters are those of the bytes, and the input stream then shows what follows them, for each role, with no content due; a failure is of the kind that Parameters.FailureKinds characterises, with its reply |
| Connections.Accept | src/fcgi/listener.cpp:51-88 | every outcome, in terms of the bytes and of the reads made: a connection has the role, id and flag of a valid BEGIN_REQUEST and is ready for the application; a rejection sends END_REQUEST with protocol status 1, or 3 for an unknown role; NoHeader comes of one read of 8 bytes that got fewer or of another version, NoBody of a second that got fewer, and of nothing else; where the parameters fail, the kind of failure and what was written are those the bytes call for |
| Connections.AcceptDecides | src/fcgi/listener.cpp:65-73 | if both reads got their 8 bytes and a request with a known role begins, it is accepted exactly if its parameters are sound, and is accepted in no other case |
| Connections.StackedConnection.Perform | src/fcgi/server_connection_stacked.cpp:65-80 | an operation on one output stream has the effect that Sessions gives it, a flush that of Sessions.FlushSends, and leaves the other stream and the input as they were |
| Connections.StackedConnection.Get | src/fcgi/server_connection_stacked.cpp:108-111 | a character taken from the input is the one its bytes determine, and the output streams stay as they were, whatever the outcome |
| Connections.StackedConnection.Close | src/fcgi/server_connection_stacked.cpp:86-97 | all or nothing: every end record and three closed streams, or, for a Filter only, a refusal after which input and writers are as before and reads go on; closing again sends nothing |
| Applications.Receive | src/fcgi/streambuf.cpp:204-312 | characters taken one after the other from the object, through any splits of the transport, are the draws that its bytes determine, until one fails; then the reply, and whether too long a content is due, follow from the header it met |
| Applications.PerformAndFlush | src/fcgi/streambuf.cpp:198-202 | after any operations and a flush of one stream, all that the stream keeps is on the descriptor and nothing is held |
| Applications.Serve | src/fcgi/server_connection_stacked.cpp:86-92 | from any open connection, the bytes on the descriptor after any run and the close are those of the whole wire of Sessions, and the close ends as the input state says |
| Applications.Answer | src/fcgi/listener.cpp:51-88 | from accept through any run to a close that succeeds, for every role: the bytes on the descriptor are the whole wire for the id of BEGIN_REQUEST; without a connection nothing but what accept does |
| Applications.CloseOrReadOn | src/fcgi/server_connection_stacked.cpp:86-92 | a close that the guard admits succeeds; a refused one succeeds once the input has been read to its end, and has then sent what a first success sends |
| Applications.GetAndClose | src/fcgi/server_connection_stacked.cpp:86-97 | after a read that returned or threw the close of a connection ends the process only behind an overlong record of the wrong type, and there always, unless it is refused to a Filter on its standard input; it is refused only where content is still due of that; the wire is the reply of the failed read, then the closing records |
| Lives.LiveAll | src/fcgi/server_connection_stacked.cpp:86-97 | reads, operations, status settings and attempts to close in any order, going on after a read that threw: the objects, the characters taken and the wire are those that the bytes and the steps determine, up to a close that is not refused or a read that does not come back; every close that was refused was a Filter's, before the end of its standard input |
| Lives.WholeLife | src/fcgi/streambuf.cpp:366-415 | over every life: each stream is on the wire as if no read had failed, the last record is the END_REQUEST with the last status set, the bytes determine the records, and that END_REQUEST is the only one of the request exactly if no read met a record of the wrong type or a further BEGIN_REQUEST of it |
| Lives.SecondEnd | src/fcgi/streambuf.cpp:540-632 | behind a record of the wrong type the wire is END_REQUEST for the request, then its closing records with a second one |
| Requests.ParametersEndToEnd | src/fcgi/streams.cpp:36-54 | whatever the cut into records, parameters are accepted exactly if they encode pairs, and are those pairs in order; the input then shows the next stream |
| Requests.BadParametersThrow | src/fcgi/basics.cpp:402-425 | a complete stream of parameters whose content does not encode pairs fails by an exception, and nothing is written |
| Requests.LoneByteThrows | src/fcgi/basics.cpp:416-422 | such an input: a name length with no value length behind it |
| Requests.ResponderReads | src/fcgi/streams.cpp:48-53 | a Responder reads its standard input behind the parameters, then end of file for ever |
| Requests.FilterReads | src/fcgi/streambuf.cpp:297-302 | a Filter reads standard input, one end of file, the data behind it, then end of file for ever |
| Requests.AuthorizerReads | src/fcgi/streams.cpp:48-53 | an Authorizer's input is at its end from the start, for ever |
| Requests.FilterMayCloseUnread | src/fcgi/streambuf.cpp:109-116 | close goes ahead with content of in unread exactly where no content is due but characters are exposed or another record follows; it is refused with none left exactly where content is due that never comes |
| Requests.CloseUnread | src/fcgi/streambuf.cpp:109-116 | accept and close of a Filter succeed with all of a non-empty standard input unread at that moment |
| Requests.WrongTypeOverlong | src/fcgi/streambuf.cpp:525-632 | behind any own records a record of another stream makes the read throw, and is one behind which the close fails exactly if its content exceeds the buffer |
| Requests.OverlongExample | src/fcgi/streambuf.cpp:525-632 | such an input: a record of data to a Responder, one byte longer than the input buffer |
| Requests.SecondEndExample | src/fcgi/streambuf.cpp:540-632 | an input behind which the close sends END_REQUEST a second time: an empty record of data to a Responder |
| Requests.SetbufDropsInput | src/fcgi/streambuf.cpp:171-182 | for every input state: an input stream goes on in the new buffer as it would have, whatever is sent next, exactly when nothing was buffered and the size is the same |
| Requests.ShrinkMidRecord | src/fcgi/streambuf.cpp:171-193 | with content due and none buffered, the next character is exposed from the start of the buffer, so a setbuf goes ahead, and its assertion fails exactly if more is then due than the new buffer holds |
| Requests.ShrinkExample | src/fcgi/streambuf.cpp:171-193 | a reader that comes there: two bytes of a record of 4000, the second not at hand with the first, then a setbuf to 2048 fails |
| Format.HeaderLayout | src/fcgi/basics.cpp:150-203 | on any 8 bytes: version, type, request, content and padding length are bytes 0, 1, 2-3, 4-5 and 6, the higher byte first |
| Format.BeginBytes | src/fcgi/basics.cpp:207-247 | which 16 bytes begin a request, with which of the three roles or none, and with the keep flag |
| Format.InputTypes | src/fcgi/basics.hpp:35-66 | what a reader makes of a header of its request: types 4, 5 and 8 are own for params, in and data, and every other type but BEGIN_REQUEST is of the wrong type |
| Format.OtherVerdicts | src/fcgi/streambuf.cpp:622-632 | on any 8 bytes: which headers are of another version, foreign, or of management |
| Format.RejectedAgain | src/fcgi/streambuf.cpp:540-624 | the rejections of a further BEGIN_REQUEST in number and bytes: one, and one more for each time that what it announces has come behind it |
| Format.FrameBytes | src/fcgi/streambuf.cpp:343-356 | a record of out has type 6, of err type 7, the request, the length, and the fewest zeros that fill up to a multiple of 8 |
| Format.StreamStarts | src/fcgi/streambuf.cpp:348-384 | over every run and close: every record of out starts with 1, 6, of err with 1, 7, then the request |
| Format.RejectionBytes | src/fcgi/streambuf.cpp:531-544 | the bytes of a rejection, with application status 0 and protocol status 1 |
| Format.CloseBytes | src/fcgi/streambuf.cpp:397-409 | every close ends the wire with the 16 bytes of END_REQUEST: the request, the application status, protocol status 0 |
| Format.WholeWireBytes | src/fcgi/streambuf.cpp:397-409 | the same behind every run |
| Format.PairBytes | src/fcgi/basics.cpp:385-400 | a short name and a long value: one byte of length, then four with the top bit set, the most significant first |
| Format.SumRefused | src/fcgi/basics.cpp:414-418 | where the sum of two lengths leaves a 32-bit int |
| Format.BufferSizes | src/fcgi/server_connection_stacked.cpp:33-40 | input takes 16384 bytes of content in a record, and without flushes output sends 65520 |
| Format.OutputExample | src/fcgi/streambuf.cpp:314-420 | the whole wire of one byte put, a flush and the close, byte by byte |

## Left out

- Management records (get-values, unknown types): the model stops at such a header with the outcome `Stopped`. The source answers get-values by reading name-value pairs through the same buffer to the end of the stream, and does not mark the body of an unknown type for discarding.
- What a reader delivers after an exception to an application that clears the state of its stream and reads on: what is left due, and all that the application can do otherwise, is proved.
- Lives.LiveAll: setbuf on the input stream is not one of its steps, since what it drops depends on how the transport has split the bytes; its effect is that of Setbuf and SetbufDropsInput. A buffer that the application shares between two streams is not modelled.
- NamesValues.ParseFirst: two lengths whose sum leaves a 32-bit int are refused; the addition is undefined in the source, and so is the memory that such lengths would ask for.
- StreamBuffers.Streambuf.Underflow: for a foreign BEGIN_REQUEST with neither content nor padding the reply is shown to be written at least once where Spins is reported; the source writes it without end.
- Connections.Accept: a header or body that comes in more than one read is an exception in the source and in the model; how the transport splits the bytes is left open, and is told afterwards by the reads made.
- Partial writes and failing system calls: a write takes all bytes (the source asserts it), a read fails only by the peer's shutdown.
- Sockets, pipes, polling, graceful shutdown, addresses and listener options in `src/net`; `src/os`, `src/fs`, `src/rnd`, `src/util`, `src/base`; statistics and intervals in `src/math`.
- The iostream state flags beyond what ends a read, locales, and C++ object mechanics such as destructors that swallow exceptions; a destructor's close is `Close`.
- Keep-connection reuse, which the source does not implement; the flag is carried.
- Concurrency between connections: a connection and its streams are used by one thread.
