# Verification of webrtc/base protocol components

A Dafny model of the small protocol engines and data structures of `webrtc/base`, with proofs about
whole runs of them. `dafny verify dfyconfig.toml` checks everything.

The code that changes state is modelled by classes with the same fields and by methods with the same
branches and loops; each method is proved against a function on values, and the properties are
lemmas about these functions or invariants of the classes. Sockets, streams, documents, files and
callbacks are the environment: their answers are parameters, so that a method is proved for every
sequence of answers, including partial, blocked and failing ones.

| file | what it models |
|---|---|
| `HttpParser.dfy` | the incremental HTTP parser, and one uninterrupted pass (`Run`) as its meaning |
| `HttpGrammar.dfy` | which texts end a message, and how, said of the text alone |
| `HttpWire.dfy` | the text of a message, chunked bodies included (section 4.1 of RFC 7230), and how the parser reads it back |
| `HttpBase.dfy` | the sender and the receive loop around one 32 KiB buffer, and the operations |
| `HttpSent.dfy` | what a sender puts on the wire, as one of the shapes of a message |
| `HttpRoundTrip.dfy` | a sender and a receiver together |
| `LockFreeQueue.dfy` | the ring queue between two threads, with wrapping 32-bit counters |
| `TcpFraming.dfy` | packets over a byte stream |
| `Base64.dfy` | encoder and flag-driven decoder (sections 3.5 and 4 of RFC 4648) |
| `Base64Text.dfy` | what the decoder returns for a text, read off the text |
| `Crc32.dfy` | the table-driven CRC-32 against its definition bit by bit (section 8 of RFC 1952) |
| `ByteOrder.dfy` | bytes, and numbers as bytes in both orders |
| `ByteBuffer.dfy` | the relocating byte buffer, and its saved read positions |
| `DiskCache.dfy` | locking and size accounting of the disk cache |
| `HttpAttributes.dfy` | quoting, and the parser of challenge attributes |
| `HttpClient.dfy` | retries, redirections and proxy authentication of the client |
| `HttpUrl.dfy` | printing and parsing of URLs |
| `Event.dfy` | events with and without automatic reset, and the deadline of a wait |
| `Arithmetic.dfy` | quotients and remainders |

## Main results

- **Parser.** Cutting the input anywhere changes neither callbacks, nor fields, nor result
  (`SplitIndependence`); a document that takes its data in portions, blocks or fails never takes the
  parser off that path (`DeliverOnPath`, for what `HttpParser.Process` computes), and only its answers
  make the parser block (`DeliverBlocks`).
- **Grammar.** A pass comes to an end exactly on the texts that begin with a whole message or with one
  of five kinds of text that is refused, and it ends with the error, the callbacks and the tail that
  this says (`EndsExactly`, `MessageExactly`, `RefusedExactly`); so does a call of Process (`CallEnds`).
  What is sent is such a message (`SentText`, `SentIsMessage`).
- **Sender and receiver.** At every moment, wire plus buffer is the message so far, and the callbacks
  made are those of everything that has arrived. Together: what a receiver has reported is a prefix
  of the message (`ReceivedIsPrefix`); an operation that ends without an error has delivered exactly
  the message, and with the whole message there it ends so, unless the document answers that it
  blocks or fails, or the stream ended before (`CompletedIsReceived`, `ReadEventDelivers`,
  `WritableEventDelivers`). Both sides come to their end when they are not hindered: a sender whose
  document is ready and whose network takes something each time (`SendCompletes`), and a receiver
  whose document takes something each time and whose network gives the message in any pieces
  (`RecvCompletes`). The buffer is never too small for a line of a message (`LineFits`). What the
  headers have to be for all this is said in `AnnouncedIsReadable`. Each operation begun is completed
  exactly once, as an invariant of every method of `HttpBase`.
- **Queue.** In all interleavings the popped values are a prefix of the pushed ones for every
  capacity that divides 2^32, and for no other capacity but 0: `BreakingRun` is the run that loses a
  value (`SafeCapacities`).
- **Framing.** What is delivered is a prefix of what was accepted, and all of it once both sides have
  drained (`TcpFraming.EndToEnd`); a frame is read back exactly if the packet is shorter than 2^16
  bytes (`FrameReadsBack`).
- **Events.** Every signal is waiting, has let one wait pass, or was dropped by another `Set` or a
  `Reset`, in all interleavings (`SignalsAreConserved`).
- **Base64.** Strict decoding accepts exactly the encodings (`StrictIffEncoding`). Under every
  combination of flags noise is invisible, with one exact exception (`NoiseIsIgnored`,
  `NoiseInBuffer`), and the result is read off the bits of the text: bytes, success and what is left,
  with and without pads (`DecodeIs`, `DecodeAnyIs`, `UnpaddedDecodes`, `FewGroupsDecode`).
- **CRC-32.** The table computes the definition, updates compose, and every error burst of up to 32
  consecutive bits, at any bit position, changes the check (`BurstDetected`). The polynomial is the
  standard one, and a message followed by its check has the standard residue (`Residue`).
- **ByteBuffer.** A queue through all relocations (`BufferIsQueue`); a saved position is accepted
  exactly if nothing was relocated since, and then restores contents (`RewindRestores`,
  `AcceptedUnlessRelocated`); numbers of mixed widths come back (`MixedRoundTrip`).
- **Disk cache.** Readers and writers exclude each other in every run. As long as no stream has two
  writers and every file can be deleted, each entry's size is the sum of its files that are not being
  written, and the total is the sum over the entries.
- **Attributes and URLs.** Round trips with the exact condition on the components; lists of words, plain
  and quoted values in any order (`ListReads`); any URL with or without its optional parts (`UrlReads`).
- **Client.** One start by the user causes at most `12 * (retries_ + 1)` requests to the pool, whatever
  the pool and the servers do, and `WorstCase` attains the bound. What each completion leads to is
  told for every code, error and setting (`HttpClient.OnHttpComplete`).

## Where the code does not do what one would expect

- A capacity that does not divide 2^32 makes the queue return wrong values after 2^32 pushes
  (`BreakingRunBreaks`), although the constructor accepts any capacity.
- `PARSE_WHITE` with `PAD_YES` refuses white space behind a full last quantum, and only there
  (`NoiseIsIgnored`, `TrailingSpaceFails`).
- The receive loop reads before it processes what is buffered. When the stream ends behind a document
  that has blocked, the buffered rest is not delivered any more. A body of unknown length is then
  completed without an error (`LoseTail`); a message that says where it ends is completed with
  HE_DISCONNECTED, even if all of it had arrived (`DisconnectWhole`). For every body, nothing is lost
  exactly if the parser was waiting for input (`EndOfStream`).
- `flush_data` asks a blocked network again and again exactly if there is no document, the buffer is
  not full, and the rest of the headers fits into it (`Spins`, in `HttpBase.FlushData`); given to
  `send()`, these are the messages without a document whose preamble fits into the buffer
  (`SpinsWhenSent`, in `HttpBase.Send`), such as the request in `SendSpins`. In all other cases, with a
  document in particular, it returns after at most one write more than the buffer has characters.
- A chunk of size 2^64 - 1, for which `-1` is enough, never ends: what follows is all taken for its data
  (`EndlessChunk`, `MinusOne`).
- `send` and `recv` on a stream that is not open report HE_SOCKET_ERROR: they pass HE_DISCONNECTED where
  the error code of a socket is expected (`HttpBase.Send`, `HttpBase.Recv`).
- `Send` lets packets of 65536 to 65538 bytes pass its size test; when the buffer is empty they trip
  the assertion in `AppendToOutBuffer`, and no others do (`AsyncTCPSocket.Send`). Their length would
  not fit its field (`FrameReadsBack`).
- A timeout that is negative and no whole number of seconds, other than `kForever`, gives an invalid
  deadline at the beginning of a second (`Events.Deadline`, `NegativeTimeouts`).
- `LockResource` can evict the entry it is about to lock, and goes on with a deleted entry
  (`LockEvictsItself`): for some choice of what is evicted exactly if the cache is above its limit, the
  entry is new, or unlocked and unused, and the entries that cannot be deleted are within the limit
  (`EntryGoneIff`); for a given choice, `LockOutcomeOf` tells what happens.

## Model

| member | source | states |
|---|---|---|
| HttpParsing.RunSplit | webrtc/base/httpbase.cc:59-122 | a pass over a concatenation is a pass over the first part, then one over its unprocessed tail and the rest |
| HttpParsing.SplitIndependence | webrtc/base/httpbase.cc:59-213 | any cutting of the input gives the same callbacks, fields, tail and result as one call |
| HttpParsing.EventsMonotone | webrtc/base/httpbase.cc:59-122 | callbacks made on a prefix of the input are a prefix of the callbacks |
| HttpParsing.DataPortion | webrtc/base/httpbase.cc:97-118 | body handed over in a smaller portion leads to the same outcome |
| HttpParsing.WaitsOnlyForInput | webrtc/base/httpbase.cc:70-121 | PR_CONTINUE means an unfinished line or an exhausted body |
| HttpParsing.WaitsMeans | webrtc/base/httpbase.cc:70-121 | exactly there the parser can do nothing without more input |
| HttpParsing.UnknownNeverEnds | webrtc/base/httpbase.cc:97-118 | a body of unknown length is reported as it comes and never ends by itself |
| HttpParsing.RunIdle | webrtc/base/httpbase.cc:545-556 | processing again without new input changes nothing |
| HttpParsing.PathExtends | webrtc/base/httpbase.cc:511-556 | a run that is on its path stays on it when more input arrives |
| HttpParsing.PathContinues | webrtc/base/httpbase.cc:551-568 | a further call of Process keeps a run on its path, whether it continues, blocks or completes |
| HttpParsing.FindLine | webrtc/base/httpbase.cc:71-84 | the next line, up to its newline, without trailing space |
| HttpParsing.HttpParser.ProcessLine | webrtc/base/httpbase.cc:124-213 | the switch over the states has exactly the effect of LineStep |
| HttpParsing.HttpParser.ProcessHeaderLine | webrtc/base/httpbase.cc:135-169 | name, value, Content-Length and Transfer-Encoding of a header line, with its errors |
| HttpParsing.HttpParser.ProcessData | webrtc/base/httpbase.cc:846-869 | the document takes 1 to n characters, blocks, or fails with HE_STREAM |
| HttpParsing.DeliverOnPath | webrtc/base/httpbase.cc:59-122 | whatever the document does, a call stays on the path of the uninterrupted pass |
| HttpParsing.DeliverBlocks | webrtc/base/httpbase.cc:97-118 | a call blocks only in front of body, and only because the document answered so or its answers were used up |
| HttpParsing.DeliverNothing | webrtc/base/httpbase.cc:846-869 | a document that takes nothing gets nothing |
| HttpParsing.HttpParser.Process | webrtc/base/httpbase.cc:59-122 | the loop computes what Deliver says, for every sequence of answers of the document, with the three properties above |
| HttpParsing.HttpParser.Complete | webrtc/base/httpbase.cc:220-226 | OnComplete is called at most once |
| HttpGrammar.NamesEqual | webrtc/base/httpbase.cc:147-160 | two names are equal if their characters differ at most in the case of a letter |
| HttpGrammar.DigitIs | webrtc/base/httpbase.cc:179 | the digits of base sixteen and their values |
| HttpGrammar.NumberIs | webrtc/base/httpbase.cc:176-183 | strtoul uses up a line exactly if it is space, a sign, 0x and digits, and its value, too large and negative numbers included |
| HttpGrammar.GoodHeaderStep | webrtc/base/httpbase.cc:135-169 | an acceptable header sets the length or the coding and is reported with name and value |
| HttpGrammar.BadHeaderStep | webrtc/base/httpbase.cc:135-169 | any other line that is not blank is a protocol error |
| HttpGrammar.PreambleRun | webrtc/base/httpbase.cc:129-174 | behind leader, headers and blank line the body starts in the framing of the last announcement, unless the owner refuses |
| HttpGrammar.PiecesRun | webrtc/base/httpbase.cc:91-198 | good chunks yield their data |
| HttpGrammar.EndlessChunk | webrtc/base/httpbase.cc:97-118 | a chunk of the size that stands for an unknown length never ends |
| HttpGrammar.MinusOne | webrtc/base/httpbase.cc:176-183 | -1 is that size |
| HttpGrammar.EndingEnds | webrtc/base/httpbase.cc:59-213 | a text that begins with an ending is ended by it, with its error, its callbacks and the tail behind it |
| HttpGrammar.FindEnding | webrtc/base/httpbase.cc:59-213 | every text that ends a pass begins with an ending |
| HttpGrammar.EndsExactly | webrtc/base/httpbase.cc:59-213 | both together |
| HttpGrammar.MessageExactly | webrtc/base/httpbase.cc:59-213 | a pass ends without an error exactly if the text begins with an accepted leader, acceptable headers, a blank line the owner accepts, and a body complete in the announced framing |
| HttpGrammar.RefusedExactly | webrtc/base/httpbase.cc:124-213 | it ends with an error exactly if the text begins with one that is refused with this error: the leader's, the owner's, or HE_PROTOCOL |
| HttpGrammar.CallEnds | webrtc/base/httpbase.cc:59-122 | the same for a first call of Process with any document |
| HttpSent.HeaderLinesAre | webrtc/base/httpbase.cc:703-725 | the lines of the headers that are sent |
| HttpSent.ChunkingIs | webrtc/base/httpbase.cc:417-421 | the body is sent in chunks exactly if the first Transfer-Encoding says chunked |
| HttpSent.ChunkIs | webrtc/base/httpbase.cc:611-642 | eight lower-case digits that write the length, the data, and the line breaks |
| HttpSent.SentText | webrtc/base/httpbase.cc:398-668 | the text of a message: leader, headers, blank line, and the document or its chunks with the last one |
| HttpSent.SentIsMessage | webrtc/base/httpbase.cc:606-668 | that text in chunks is a whole message of the grammar |
| HttpWire.HexValueOfDigits | webrtc/base/httpbase.cc:632-638 | zero-padded hexadecimal digits have the value they were printed from |
| HttpWire.ChunkSizeReadsBack | webrtc/base/httpbase.cc:176-190 | strtoul in base 16 reads back the eight digits that flush_data prints for a chunk size, and stops at their end |
| HttpWire.LineReads | webrtc/base/httpbase.cc:71-90 | a line with CR LF is processed as the line without trailing space |
| HttpWire.ChunkReads | webrtc/base/httpbase.cc:176-198 | one chunk is read back as its data, and the parser is ready for the next chunk |
| HttpWire.ChunksRead | webrtc/base/httpbase.cc:606-642 | any sequence of chunks is read back as the concatenated data |
| HttpWire.LastChunkReads | webrtc/base/httpbase.cc:646-653 | the terminator completes the message with the tail untouched |
| HttpWire.ChunkedBodyReads | webrtc/base/httpbase.cc:606-668 | a chunked body is read back exactly and completes right behind its last byte |
| HttpWire.PlainBodyReads | webrtc/base/httpbase.cc:97-118 | a body of announced length is read back exactly |
| HttpWire.HeaderLineReads | webrtc/base/httpbase.cc:703-713 | the printed line of a header splits into its name and its trimmed value |
| HttpWire.HeadersReadBack | webrtc/base/httpbase.cc:703-725 | all headers that are not discarded are read back in order |
| HttpWire.PreambleReads | webrtc/base/httpbase.cc:417-433 | leader and headers are read back, and the body announced by them is expected |
| HttpPump.HttpBase.constructor | webrtc/base/httpbase.cc:359-361 | the invariants hold initially |
| HttpPump.HttpBase.DoComplete | webrtc/base/httpbase.cc:727-745 | completes the current operation once and leaves HM_NONE |
| HttpPump.HttpBase.StreamClosed | webrtc/base/httpbase.cc:773-784 | a closed stream completes the current operation with the error of HandleStreamClose, or is reported |
| HttpPump.ErrorsOfClose | webrtc/base/httpbase.cc:475-492 | the error of a close, by mode and code |
| HttpPump.HttpBase.QueueHeader | webrtc/base/httpbase.cc:706-721 | a header is queued, discarded if it can never fit, or waits for room |
| HttpPump.HeadersFitMeans | webrtc/base/httpbase.cc:703-722 | queue_headers gets through without a write exactly if all headers are short enough and fit together |
| HttpPump.SpinsAtStart | webrtc/base/httpbase.cc:423-433 | which messages given to send() these are |
| HttpPump.SendSpins | webrtc/base/httpbase.cc:398-434 | a request of one header makes send() ask a blocked network any number of times |
| HttpPump.HttpBase.QueueHeaders | webrtc/base/httpbase.cc:703-725 | keeps wire plus buffer the message so far, within the buffer |
| HttpPump.HttpBase.QueueDocument | webrtc/base/httpbase.cc:606-668 | document data is queued with its framing within the buffer; the terminator follows the last portion |
| HttpPump.HttpBase.QueueChunk | webrtc/base/httpbase.cc:611-642 | length, data and line breaks placed out of order in the buffer make one chunk |
| HttpPump.HttpBase.Transmit | webrtc/base/httpbase.cc:679-686 | a partial write moves characters from the buffer to the wire |
| HttpPump.HttpBase.FlushTurn | webrtc/base/httpbase.cc:590-698 | one turn: fill, complete, or write; and what it does while the network blocks |
| HttpPump.HttpBase.FlushData | webrtc/base/httpbase.cc:583-701 | keeps the sender's invariant, stops only where it must, completes without error only with the whole message on the wire, and with an error only if the document or the network fails; on a network that keeps blocking it returns, except exactly if there is no document and the rest fits into the buffer |
| HttpPump.HttpBase.ProcessBuffered | webrtc/base/httpbase.cc:551-568 | one call of Process keeps the receiver's invariant |
| HttpPump.HttpBase.ReceiveTurn | webrtc/base/httpbase.cc:506-572 | one turn of the loop: what it reads, and why it ends; it gives up only when nothing arrives, or the document does not take the body |
| HttpPump.HttpBase.DoReceiveLoop | webrtc/base/httpbase.cc:494-573 | keeps the receiver's invariant, ends only for a reason that holds, reads what there is room for, and gives up control only when all is processed or the document does not take the body |
| HttpPump.HttpBase.ReadAndProcessData | webrtc/base/httpbase.cc:575-581 | completes exactly when the receive loop has finished, with its error |
| HttpPump.HttpBase.Attach | webrtc/base/httpbase.cc:372-382 | a connecting stream begins an operation |
| HttpPump.HttpBase.Detach | webrtc/base/httpbase.cc:384-396 | the stream is given back only between operations |
| HttpPump.HttpBase.Send | webrtc/base/httpbase.cc:398-434 | begins one operation, which is then current or completed once, or reports HE_SOCKET_ERROR for a stream that is not open; which messages keep it from returning on a blocked network |
| HttpPump.HttpBase.QueueLeader | webrtc/base/httpbase.cc:408-426 | the leader line as far as it fits into the buffer |
| HttpPump.HttpBase.Recv | webrtc/base/httpbase.cc:436-456 | begins one operation with a reset parser; if it is completed at once, what was reported and why it ended |
| HttpPump.HttpBase.SetIgnoreData | webrtc/base/httpbase.h:111-112 | the body goes to the document unless it is ignored or there is none |
| HttpPump.HttpBase.Abort | webrtc/base/httpbase.cc:458-466 | completes the current operation with the given error |
| HttpPump.HttpBase.OnHttpStreamEvent | webrtc/base/httpbase.cc:751-784 | every event keeps the invariants and completes at most the current operation; connecting ends without an error exactly if the stream has opened; a read event does what the receive loop does, and a write event what flush_data does |
| HttpPump.HttpBase.OnDocumentEvent | webrtc/base/httpbase.cc:786-804 | the same for events of the document, whose write event goes on receiving and whose read event goes on sending |
| HttpRoundTrip.MessageReads | webrtc/base/httpbase.cc:606-668 | a whole message, chunked or plain, is read back as what was sent |
| HttpRoundTrip.EndToEnd | webrtc/base/httpbase.cc:59-213 | the receiver's callbacks are a prefix of the message, and it ends exactly when it has all of it |
| HttpRoundTrip.WireIsPrefix | webrtc/base/httpbase.cc:583-698 | what a sender has on the wire is the beginning of a text of its message |
| HttpRoundTrip.TextIsBounded | webrtc/base/httpbase.cc:606-653 | no message is longer than with chunks of one character |
| HttpRoundTrip.SendCompletes | webrtc/base/httpbase.cc:398-434 | with a document that is ready and a network that takes at least a character each time, send() completes without error and with the whole message on the wire |
| HttpRoundTrip.FlushCompletes | webrtc/base/httpbase.cc:583-701 | the same from any state of a sender |
| HttpRoundTrip.WriteEventCompletes | webrtc/base/httpbase.cc:759-762 | the same for a write event of the stream |
| HttpRoundTrip.ReadyEventCompletes | webrtc/base/httpbase.cc:794-797 | the same for a read event of the document |
| HttpRoundTrip.ReceivedIsPrefix | webrtc/base/httpbase.cc:494-698 | at every moment of every run the receiver has reported a prefix of the message |
| HttpRoundTrip.KnowsItsEnd | webrtc/base/httpbase.cc:215-218 | a receiver of a readable message never takes the end of the stream for its end |
| HttpRoundTrip.CompletedIsReceived | webrtc/base/httpbase.cc:494-745 | a reception ends without an error exactly if it was parsed to its end, and has then reported the message; never with HE_OVERFLOW; with the whole message there, only a document can make it end otherwise |
| HttpRoundTrip.WholeMessageIsProcessed | webrtc/base/httpbase.cc:538-568 | a receiver that has the whole message and is still at work has body left for its document |
| HttpRoundTrip.ReadEventDelivers | webrtc/base/httpbase.cc:751-784 | the same for a read event at the object, with any part of the wire: with the whole message there it ends without an error, unless the answers of the document or the end of the stream prevent it |
| HttpRoundTrip.WritableEventDelivers | webrtc/base/httpbase.cc:786-792 | the same for a write event of a document that did not take all before |
| HttpRoundTrip.RoomForMore | webrtc/base/httpbase.cc:511-536 | a receiver of the message that waits has room for more |
| HttpRoundTrip.ReceiveCompletes | webrtc/base/httpbase.cc:494-581 | with a document that takes something each time, and the message in pieces of any length, read events complete the reception with exactly the message |
| HttpRoundTrip.RecvCompletes | webrtc/base/httpbase.cc:436-581 | the same from recv() on |
| HttpRoundTrip.LinesAreShort | webrtc/base/httpbase.cc:616-713 | no line the sender emits fills the receiver's buffer |
| HttpRoundTrip.LineFits | webrtc/base/httpbase.cc:530-536 | a receiver of the message that waits for a line has room for more |
| HttpRoundTrip.AcceptedIff | webrtc/base/httpbase.cc:135-169 | headers are accepted exactly if each of them is that is sent |
| HttpRoundTrip.ChunksAreAnnounced | webrtc/base/httpbase.cc:417-421 | if every transfer encoding says chunked, the receiver expects chunks exactly if the sender uses them |
| HttpRoundTrip.LengthIsAnnounced | webrtc/base/httpbase.cc:147-152 | without a transfer encoding the receiver expects the announced length |
| HttpRoundTrip.AnnouncedIsReadable | webrtc/base/httpbase.cc:124-174 | well-formed headers with either announcement make a message that its receiver can read |
| HttpRoundTrip.CloseDelivers | webrtc/base/httpbase.cc:506-536 | when the stream ends, all that arrived was delivered exactly if the parser is waiting |
| HttpRoundTrip.EndOfStream | webrtc/base/httpbase.cc:479-536 | the same for the object, and with which error the operation ends |
| HttpRoundTrip.LoseTail | webrtc/base/httpbase.cc:506-536 | from attach and recv on: a body of unknown length behind a blocked document is lost, and the operation ends without an error |
| HttpRoundTrip.DisconnectWhole | webrtc/base/httpbase.cc:506-536 | from attach and recv on: a message that is there completely ends with HE_DISCONNECTED |
| LockFreeQueue.FixedSizeLockFreeQueue.PushBack | webrtc/base/atomicops.h:75-90 | new memory and result of a push |
| LockFreeQueue.FixedSizeLockFreeQueue.PeekFront | webrtc/base/atomicops.h:95-106 | the value at the popped count |
| LockFreeQueue.FixedSizeLockFreeQueue.PopFront | webrtc/base/atomicops.h:111-117 | new memory and result of a pop |
| LockFreeQueue.FixedSizeLockFreeQueue.ClearAndResizeUnsafe | webrtc/base/atomicops.h:121-126 | an empty queue of the new capacity |
| LockFreeQueue.PushAlone | webrtc/base/atomicops.h:75-90 | the producer's steps in a row are one push |
| LockFreeQueue.PopAlone | webrtc/base/atomicops.h:111-117 | the consumer's steps in a row are one pop |
| LockFreeQueue.SlotOfCounter | webrtc/base/atomicops.h:84-104 | a wrapped counter finds the slot of the full count if the capacity divides 2^32 |
| LockFreeQueue.TestsAreExact | webrtc/base/atomicops.h:128-134 | full, empty and size are exact, and the size is in [0, capacity] |
| LockFreeQueue.StoreKeepsUnread | webrtc/base/atomicops.h:80-88 | a store overwrites no unread slot |
| LockFreeQueue.StepKeepsInv | webrtc/base/atomicops.h:75-117 | every step of either thread keeps the invariant |
| LockFreeQueue.RunKeepsInv | webrtc/base/atomicops.h:75-117 | the invariant holds in every interleaving |
| LockFreeQueue.PopsArePrefix | webrtc/base/atomicops.h:72-117 | popped values are a prefix of pushed values |
| LockFreeQueue.BreakingRunBreaks | webrtc/base/atomicops.h:67-70 | for any other capacity a run pops a wrong value |
| LockFreeQueue.SafeCapacities | webrtc/base/atomicops.h:67-117 | exactly capacity 0 and the capacities that divide 2^32 are safe in every run |
| TcpFraming.FrameFormat | webrtc/base/asynctcpsocket.cc:259-262 | a frame is the length in two bytes, the high one first, and the packet |
| TcpFraming.FrameRead | webrtc/base/asynctcpsocket.cc:278-286 | what is taken for a frame: two bytes of length, the high one first, and as many bytes |
| TcpFraming.FrameReadsBack | webrtc/base/asynctcpsocket.cc:259-286 | a frame gives back its packet exactly if the length fits into 16 bits |
| TcpFraming.FramesDetermine | webrtc/base/asynctcpsocket.cc:274-293 | the stream determines packets and boundaries |
| TcpFraming.AsyncTCPSocket.FlushOutBuffer | webrtc/base/asynctcpsocket.cc:150-165 | exactly the bytes taken leave the buffer |
| TcpFraming.AsyncTCPSocket.AppendToOutBuffer | webrtc/base/asynctcpsocket.cc:167-171 | bytes are added at the end of the buffer |
| TcpFraming.AsyncTCPSocket.Send | webrtc/base/asynctcpsocket.cc:248-272 | accepted, dropped silently, dropped with an error or refused; wire plus buffer stay the frames of the accepted packets; the assertion is tripped exactly by packets of 2^16 to kBufSize bytes on an empty buffer |
| TcpFraming.AsyncTCPSocket.OnWriteEvent | webrtc/base/asynctcpsocket.cc:216-226 | the rest of a packet goes out; ready is signalled when all has |
| TcpFraming.AsyncTCPSocket.OnReadEvent | webrtc/base/asynctcpsocket.cc:195-213 | what arrived stays delivered frames plus an unfinished one; the overflow branch is unreachable |
| TcpFraming.AsyncTCPSocket.ProcessInput | webrtc/base/asynctcpsocket.cc:274-293 | all whole packets are delivered in order, and room is left |
| TcpFraming.EndToEnd | webrtc/base/asynctcpsocket.cc:248-293 | delivered packets are a prefix of the accepted ones, and all of them once drained |
| Base64.TablesAgree | webrtc/base/base64.cc:32-69 | the two tables are inverse to each other |
| Base64.EncodeFromArray | webrtc/base/base64.cc:98-136 | the loop writes the encoding, of four characters per three bytes begun |
| Base64.GetNextQuantum | webrtc/base/base64.cc:138-190 | the loop finds the groups, the padding and the stop of the scan, rolling back illegal pads |
| Base64.TakeBytes | webrtc/base/base64.cc:228-240 | the whole bytes of a quantum and the bits left over |
| Base64.DecodeFromArray | webrtc/base/base64.cc:204-258 | bytes, success and position of the decoder |
| Base64.StrictAcceptsOnlyEncodings | webrtc/base/base64.cc:138-258 | whatever strict decoding accepts is the encoding of its result |
| Base64.EncodingsDecode | webrtc/base/base64.cc:138-258 | under all flags that allow pads, encodings decode and are used up |
| Base64.StrictIffEncoding | webrtc/base/base64.cc:98-258 | strict decoding gives x exactly on the encoding of x |
| Base64.ScanIgnoresNoise | webrtc/base/base64.cc:142-190 | a quantum is the same without the noise |
| Base64.NoiseIsIgnored | webrtc/base/base64.cc:142-257 | noise changes nothing, except that required pads fail behind a full last quantum |
| Base64.NoiseInBuffer | webrtc/base/base64.cc:225-257 | when all input has to be used, the exception is seen in the text: noise at the end that does not follow a pad |
| Base64.NoisyEncodingsDecode | webrtc/base/base64.cc:142-257 | an encoding with noise anywhere decodes to what was encoded |
| Base64.TrailingSpaceFails | webrtc/base/base64.cc:241-249 | the smallest input of the exception |
| Base64Text.TablesAreStandard | webrtc/base/base64.cc:32-69 | the tables are the standard alphabet, the pad and white space |
| Base64Text.EncodingIs | webrtc/base/base64.cc:98-136 | an encoding spells the bits of the bytes, filled up with zeros, and pads |
| Base64Text.QuantumBits | webrtc/base/base64.cc:228-240 | the bits of a quantum are those of its bytes and the unused ones |
| Base64Text.DecodeIs | webrtc/base/base64.cc:138-258 | groups followed by anything else, for a decoder that does not skip: bytes, success and rest, for all flags |
| Base64Text.DecodeAnyIs | webrtc/base/base64.cc:138-258 | any text, for a decoder that skips everything it does not know: the same |
| Base64Text.NoiseIs | webrtc/base/base64.cc:144-153 | which characters are passed over wherever they stand |
| Base64Text.SpellingReads | webrtc/base/base64.cc:138-258 | the characters of groups are read as these groups under every flag |
| Base64Text.UnpaddedDecodes | webrtc/base/base64.cc:241-249 | an encoding without its pads decodes; with success unless pads are required and missing |
| Base64Text.FewGroupsDecode | webrtc/base/base64.cc:228-249 | one to three groups alone: the bytes, and success exactly if pads are not required and the unused bits are zero or ignored |
| Crc32.PolynomialIsStandard | webrtc/base/crc32.cc:20 | the exponents of the polynomial in section 8 of RFC 1952, lowest bit highest |
| Crc32.Residue | webrtc/base/crc32.cc:40-49 | a message followed by its check, low byte first, has the check 0x2144DF1C |
| Crc32.FeedIsShift | webrtc/base/crc32.cc:27-37 | feeding up to 32 bits is xoring them in and shifting |
| Crc32.ShiftIsLinear | webrtc/base/crc32.cc:29-35 | the shift is linear over xor |
| Crc32.ShiftInjective | webrtc/base/crc32.cc:29-35 | the shift loses nothing |
| Crc32.TableStep | webrtc/base/crc32.cc:45-47 | one table step feeds the eight bits of a byte |
| Crc32.LastEntry | webrtc/base/crc32.cc:25-26 | the test for an initialised table is right |
| Crc32.Crc.EnsureCrc32TableInited | webrtc/base/crc32.cc:24-38 | the table is complete afterwards |
| Crc32.Crc.UpdateCrc32 | webrtc/base/crc32.cc:40-49 | the table-driven form computes the bitwise definition |
| Crc32.UpdatesCompose | webrtc/base/crc32.cc:40-49 | two updates are one over the concatenation |
| Crc32.FeedInjective | webrtc/base/crc32.cc:43-48 | a difference in the register never dies out |
| Crc32.BurstDetected | webrtc/base/crc32.cc:24-49 | messages that differ only within 32 consecutive bits have different checks |
| Crc32.FourByteBurstDetected | webrtc/base/crc32.cc:24-49 | the same for four consecutive bytes |
| ByteOrders.BERoundTrip | webrtc/base/byteorder.h:38-82 | big-endian bytes give back the number modulo the width |
| ByteOrders.LERoundTrip | webrtc/base/byteorder.h:84-128 | little-endian bytes give back the number modulo the width |
| ByteOrders.OrdersMirror | webrtc/base/byteorder.h:38-105 | the two orders are mirror images |
| ByteOrders.SetBEByte | webrtc/base/byteorder.h:38-59 | which byte stands where, the high one first |
| ByteOrders.SetLEByte | webrtc/base/byteorder.h:84-105 | the same, the low one first |
| ByteOrders.GetBEByte | webrtc/base/byteorder.h:61-82 | the number whose bytes these are, the high one first |
| ByteOrders.GetLEByte | webrtc/base/byteorder.h:107-128 | the same, the low one first |
| ByteOrders.NetworkImage | webrtc/base/byteorder.h:136-152 | on either host the converted variable holds the network bytes |
| ByteBuffers.IntegerRoundTrip | webrtc/base/bytebuffer.cc:65-172 | integers written are read back, in network order also across hosts |
| ByteBuffers.RoundTrip24 | webrtc/base/bytebuffer.cc:83-162 | 24-bit integers are read back modulo 2^24 |
| ByteBuffers.MixedRoundTrip | webrtc/base/bytebuffer.cc:65-176 | any list of numbers of any widths, written into an empty buffer, is read back modulo the widths, and nothing is left |
| ByteBuffers.ByteBuffer.Resize | webrtc/base/bytebuffer.cc:191-207 | compaction or reallocation keeps the live window, cut to the size |
| ByteBuffers.ByteBuffer.WriteBytes | webrtc/base/bytebuffer.cc:178-189 | appends, relocating when needed |
| ByteBuffers.ByteBuffer.ReadBytes | webrtc/base/bytebuffer.cc:136-144 | takes from the front, or fails and takes nothing |
| ByteBuffers.ByteBuffer.Consume | webrtc/base/bytebuffer.cc:209-214 | skips at the front |
| ByteBuffers.ByteBuffer.SetReadPosition | webrtc/base/bytebuffer.cc:220-226 | accepts any position of the current version; one of this buffer rewinds it |
| ByteBuffers.ByteBuffer.Clear | webrtc/base/bytebuffer.cc:228-232 | empties the buffer and invalidates positions |
| ByteBuffers.ByteBuffer.WriteInteger | webrtc/base/bytebuffer.cc:146-172 | the bytes of the integer in the buffer's order |
| ByteBuffers.ByteBuffer.WriteUInt24 | webrtc/base/bytebuffer.cc:155-162 | three of the four bytes of the variable |
| ByteBuffers.ByteBuffer.ReadUInt | webrtc/base/bytebuffer.cc:65-122 | the integer at the front |
| ByteBuffers.ByteBuffer.ReadUInt24 | webrtc/base/bytebuffer.cc:83-98 | the 24-bit integer at the front |
| ByteBuffers.BufferIsQueue | webrtc/base/bytebuffer.cc:136-214 | what was there and came in is what went out and is there, through all relocations |
| ByteBuffers.SameVersionSameStore | webrtc/base/bytebuffer.cc:182-232 | within one version nothing before the end moves or changes |
| ByteBuffers.RewindRestores | webrtc/base/bytebuffer.cc:216-226 | an accepted position restores contents followed by everything written since |
| ByteBuffers.AcceptedUnlessRelocated | webrtc/base/bytebuffer.cc:216-226 | it is accepted exactly if nothing was relocated or cleared |
| DiskCaching.WriterKeepsAccounting | webrtc/base/diskcache.cc:116-136 | opening a writer takes the size of its stream out |
| DiskCaching.ReleaseKeepsAccounting | webrtc/base/diskcache.cc:314-343 | closing one puts the new size back |
| DiskCaching.DeleteKeepsAccounting | webrtc/base/diskcache.cc:186-210 | deleting an entry takes its size out of the total |
| DiskCaching.OpenKeepsLocking | webrtc/base/diskcache.cc:134-168 | opening keeps reader/writer exclusion and the counts |
| DiskCaching.CloseKeepsLocking | webrtc/base/diskcache.cc:322-339 | so does closing |
| DiskCaching.DiskCache.FileWritten | webrtc/base/diskcache.cc:39-54 | writing to an open file changes no size the cache keeps |
| DiskCaching.DiskCache.LockResource | webrtc/base/diskcache.cc:97-109 | locks what is unlocked and unused, or being unlocked; which of the three outcomes it is, for every eviction |
| DiskCaching.EvictionKeeps | webrtc/base/diskcache.cc:212-247 | an eviction takes only deletable entries, keeps the sum, and is within the limit exactly if the sum is |
| DiskCaching.EvictionIs | webrtc/base/diskcache.cc:224-245 | an eviction takes the victims in order, as long as the cache is above its limit and the next one is unlocked and unused |
| DiskCaching.EvictEnough | webrtc/base/diskcache.cc:212-247 | if what cannot be deleted is within the limit, some eviction comes down to it |
| DiskCaching.EntryGoneIff | webrtc/base/diskcache.cc:97-109 | when LockResource can evict the entry it is about to lock |
| DiskCaching.CacheEntryGoneIff | webrtc/base/diskcache.cc:97-109 | the same for a cache whose accounts are right |
| DiskCaching.LockEvictsItself | webrtc/base/diskcache.cc:97-247 | a run from an empty cache in which it does |
| DiskCaching.DiskCache.WriteResource | webrtc/base/diskcache.cc:111-137 | a writer of a locked entry, and the new sizes |
| DiskCaching.DiskCache.UnlockResource | webrtc/base/diskcache.cc:139-152 | unlocks at once, with the eviction that follows, or when the last writer closes |
| DiskCaching.DiskCache.ReadResource | webrtc/base/diskcache.cc:154-169 | a reader of an unlocked entry |
| DiskCaching.DiskCache.DeleteResource | webrtc/base/diskcache.cc:186-210 | deletes exactly unlocked entries without open adapters |
| DiskCaching.DiskCache.CheckLimit | webrtc/base/diskcache.cc:212-247 | evicts only deletable entries, and nothing under the limit; the result for every choice of victims |
| DiskCaching.DiskCache.ReleaseResource | webrtc/base/diskcache.cc:314-343 | the entry after an adapter is gone, its size and its lock, and the eviction that follows an unlock; the missing-entry branch is unreachable |
| HttpAttributes.QuoteString | webrtc/base/httpcommon.cc:705-715 | the loop computes the quoted string |
| HttpAttributes.NameLength | webrtc/base/httpcommon.cc:209-222 | the first position at which a name ends |
| HttpAttributes.IsEndOfAttributeName | webrtc/base/httpcommon.cc:209-222 | the test by position is the test on the rest of the text |
| HttpAttributes.ScanQuoted | webrtc/base/httpcommon.cc:276-286 | a quoted value, with its escapes, and its end |
| HttpAttributes.ScanPlain | webrtc/base/httpcommon.cc:287-293 | an unquoted value and its end |
| HttpAttributes.ParseOne | webrtc/base/httpcommon.cc:254-298 | one attribute, with a strictly advancing position |
| HttpAttributes.HttpParseAttributes | webrtc/base/httpcommon.cc:251-299 | the parser terminates on every input with its list |
| HttpAttributes.EscapedReads | webrtc/base/httpcommon.cc:278-286 | what quote escapes is read back |
| HttpAttributes.QuoteIs | webrtc/base/httpcommon.cc:705-715 | a backslash in front of quotes and backslashes, and of nothing else |
| HttpAttributes.RawReads | webrtc/base/httpcommon.cc:276-286 | a quoted value, any characters of which may be escaped, up to the first bare quote or the end of the text |
| HttpAttributes.RawOf | webrtc/base/httpcommon.cc:276-286 | every text is such a value in front of such an end |
| HttpAttributes.PlainReads | webrtc/base/httpcommon.cc:287-293 | a plain value goes up to white space or a comma |
| HttpAttributes.ListReads | webrtc/base/httpcommon.cc:251-299 | a list of words, plain values and quoted values in any order is read as what it says |
| HttpAttributes.PlainListReads | webrtc/base/httpcommon.cc:251-299 | two plain values |
| HttpAttributes.OneReads | webrtc/base/httpcommon.cc:264-297 | a name comes back exactly if the parser does not cut it |
| HttpAttributes.RoundTrip | webrtc/base/httpcommon.cc:251-299 | a rendered list comes back exactly if its names have no white space and equal signs only at their end |
| HttpClients.BudgetOfStart | webrtc/base/httpclient.cc:265-266 | a fresh start is within the bound, and attains it without earlier redirections or context |
| HttpClients.HttpClient.HttpAuthenticate | webrtc/base/httpcommon.cc:752-788 | a challenge is answered only without a context, which it then sets |
| HttpClients.HttpClient.Authenticate | webrtc/base/httpclient.cc:767-799 | the loop over the challenges |
| HttpClients.HttpClient.Connect | webrtc/base/httpclient.cc:398-415 | one request to the pool, and whatever a refusal causes is paid |
| HttpClients.HttpClient.Start | webrtc/base/httpclient.cc:337-396 | resets the attempts and connects; does nothing for a busy client or a request with a transfer encoding |
| HttpClients.HttpClient.UserStart | webrtc/base/httpclient.cc:337-396 | fixes the limit of 12 * (retries_ + 1) requests |
| HttpClients.HttpClient.OnHttpComplete | webrtc/base/httpclient.cc:712-810 | terminates, stays within the limit, and either goes on, or reports exactly one result; which of them, for every error, code, setting and count |
| HttpClients.HttpClient.Redirect | webrtc/base/httpclient.cc:744-766 | a redirection costs one start |
| HttpClients.HttpClient.Challenge | webrtc/base/httpclient.cc:767-799 | an answered challenge costs one start |
| HttpClients.WorstCase | webrtc/base/httpclient.cc:712-810 | a run that attains the limit |
| HttpUrls.DecimalRoundTrip | webrtc/base/httpcommon-inl.h:92-97 | decimal digits have the value they were printed from |
| HttpUrls.PortReadsBack | webrtc/base/httpcommon-inl.h:51-56 | strtoul reads a printed port, whatever non-digit follows |
| HttpUrls.Url.DoSetUrl | webrtc/base/httpcommon-inl.h:24-42 | scheme, address and path of a URL |
| HttpUrls.Url.DoSetAddress | webrtc/base/httpcommon-inl.h:45-61 | host and port, behind any credentials |
| HttpUrls.Url.DoSetFullPath | webrtc/base/httpcommon-inl.h:64-78 | path and query |
| HttpUrls.Url.DoGetUrl | webrtc/base/httpcommon-inl.h:81-104 | the printed URL |
| Events.Deadline | webrtc/base/event.cc:85-110 | the deadline is exact for every timeout, and a valid time exactly if the fraction of a second does not reach back behind the current second |
| Events.NegativeTimeouts | webrtc/base/event.cc:101-109 | which timeouts that concerns |
| Events.Event.Set | webrtc/base/event.cc:68-73 | the flag is set |
| Events.Event.Reset | webrtc/base/event.cc:75-79 | the flag is cleared |
| Events.Event.Wait | webrtc/base/event.cc:81-131 | the first wake that finds the flag or an error ends the wait, and only a wait that passes takes the signal |
| Events.SignalsAreConserved | webrtc/base/event.cc:68-131 | in all interleavings each signal is waiting, taken by one wait, or dropped |
| Events.PassedAtMostSignals | webrtc/base/event.cc:68-131 | no more waits pass than signals were given |
| Events.ManualStaysSet | webrtc/base/event.cc:127-131 | without automatic reset every wait passes until Reset |
| HttpUrls.NumberIs | webrtc/base/httpcommon-inl.h:51-56 | decimal digits count for their places |
| HttpUrls.UrlReads | webrtc/base/httpcommon-inl.h:24-78 | any URL is taken apart; credentials are dropped, and a missing port is 80 or 443 |
| HttpUrls.OtherScheme | webrtc/base/httpcommon-inl.h:31-34 | a text with another scheme clears the URL |
| HttpUrls.RoundTrip | webrtc/base/httpcommon-inl.h:24-104 | a printed URL parses to its components exactly if host, path and query are printable |

## Left out

- Pull mode of `HttpBase` (`DocumentStream`, `httpbase.cc:242-353`): it swaps the document and changes
  who drives the same loop. A switch to it at the end of the headers is a pause of the parser.
- HttpSent.SentText: for a leader that fits into the buffer; a longer one is cut, as `Opening` says.
- The leader parsers and formatters, and `sscanf("%u")`: functions given from outside, which accept
  or refuse; the leader is text that is formatted already.
- Headers with NUL characters, which `%.*s` would cut.
- A stream that raises a close event while it is being closed, and callbacks that call back into
  `HttpBase` from within `onHttpComplete`; the latter is its last statement, so that a call from
  there is modelled as the next call.
- LockFreeQueue.TestsAreExact: speaks of the size at one moment; a third thread that reads the two
  counters at different moments can see any difference.
- Memory ordering of the hardware: the queue's memory is sequentially consistent.
- What the owner decides when the headers end (`onHttpHeaderComplete`) about ignoring the body, and about
  the document it goes to, is fixed in the model when the call begins in which the headers end. Body is
  handed over only after that, so that such a call is one with these values from its beginning.
- Listening sockets, `SendRaw`, and addresses of `asynctcpsocket.cc`.
- ByteBuffers.ByteBuffer.Resize: the version is unbounded, where the source has an `int`; positions saved
  2^32 relocations ago are not considered.
- `size_t` sums of sizes in the buffer and in the cache are taken not to overflow.
- DiskCaching.DiskCache.LockResource: says nothing about what follows once the entry being locked was
  evicted; the source goes on with a deleted entry.
- TcpFraming.AsyncTCPSocket.Send: says nothing about the socket after the assertion was tripped.
- ByteBuffers.ByteBuffer.SetReadPosition: a position of another buffer that lies behind the end makes the
  buffer invalid, and nothing is said about it then.
- `DiskCache::Purge`, `Initialize` and the order of eviction; `CheckLimit` evicts any deletable entry.
- The cache of `HttpClient`, name resolution (a look-up that fails counts as a refused request), and
  everything specific to Windows, Negotiate and NTLM included; the digest itself.
- The mutex and the condition variable of `event.cc`: what runs under the mutex is one step, and a wake
  may come at any time. The variant with relative timeouts is left out.
- `escape`, `encode`, `HttpComposeAttributes`, and `get_attribute` of URLs.
