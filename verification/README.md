# PeerApi in Dafny

PeerApi is a peer-to-peer library: a user's `Peer` talks to a signalling server over a WebSocket, and to
other peers over WebRTC data channels. This project models the parts of it whose correctness is not
visible from one function body, and proves what they promise, for all inputs and all runs:

| file | what it models |
|---|---|
| `Words.dfy`, `Masking.dfy` | machine words in memory; the four ways of masking a WebSocket payload (section 5.3 of RFC 6455) |
| `FrameHeader.dfy` | writing and reading WebSocket frame headers (section 5.2 of RFC 6455) |
| `Utf8.dfy`, `CloseFrame.dfy` | the table-driven UTF-8 validator against section 4 of RFC 3629; close payloads (sections 5.5.1 and 7.4 of RFC 6455) |
| `BuffersIterator.dfy`, `BufferCopy.dfy`, `StreamBuf.dfy` | asio's iterator over scattered buffers, its scatter/gather copies, and its stream buffer |
| `Uri.dfy` | the WebSocket URI parser and printer |
| `Signal.dfy` | the connection to the signalling server with its reconnect timer |
| `StringOrder.dfy`, `Session.dfy`, `SessionEffects.dfy`, `SessionObjects.dfy` | one session: message queue, map of peers, peer state machine, observer; as functions on a state, with what each message and callback does to the map, the log and the user, and as objects proved against them |
| `SessionRuns.dfy`, `PeerObjects.dfy` | the user's peer over its lifetime: opening, closing, opening again, with all the controls this leaves behind; first as runs, then as objects proved against them |
| `PeerSignal.dfy` | the user's peer and its connection to the server together |
| `Helpers.dfy` | optional values, minimum and maximum |

`dafny verify dfyconfig.toml` checks everything.

## How the model reads

- **Bytes and words.** In `Words`, `Masking`, `FrameHeader` and `StreamBuf` a byte is a `bv8`; in `Utf8` and
  `CloseFrame`, where ranges and arithmetic matter, it is an integer below 256. A machine word is the sequence
  of its base-256 digits: all shifts in the modelled code are by whole bytes, and `ShiftRightValue` and
  `ShiftLeftValue` say what that means arithmetically. One definition covers 4- and 8-byte words and both byte
  orders; a shift by the full width gives zero.
- **Memory.** The mask functions work on arrays, and input and output may be the same array. `BufferCopy` has one
  memory array, with buffers as pointer and size.
- **Outcomes.** Where a method is proved against a function, lemmas say what that function does without it: in bits and
  numbers for bytes on the wire, in the grammar for URIs, in the fields of the state for the protocols.
- **Protocols.** `Signal`, `Session`, `SessionRuns` and `PeerSignal` are step relations. Every callback, timer, post from another
  thread and user call is a step that may happen whenever the library allows it. Whether a WebRTC connection can
  be initialized is part of the command that asks for it. A run is any sequence of steps.
- **Controls.** Queued messages keep a control alive after the user's peer has let go of it, so it may still handle
  messages, also after the user has opened the peer again. A run of `SessionRuns` steps all controls there are.
- **Handlers.** Calls of the user's event handlers are recorded in order. A handler that closes something again
  does so by queueing, which is a `Post` step.

## What turned out narrower than one might expect

- `word_mask_circ` is documented to rewrite the tail of the last word; the code does not touch it
  (`src/libs/websocketpp/websocketpp/frame.hpp:754-755`). The model follows the code.
- `prepare_close` does not check that the reason is UTF-8, so it can send what the receiver rejects
  (`PreparedIsExtracted` gives the exact condition, `UncheckedReason` an input).
- `prepare` that throws moves bytes before it throws; `Smeared` is what `data()` then shows. Bytes survive that for
  certain exactly when nothing had been consumed in front of them, or at least as many bytes as there are
  (`SurvivesThrow`); `ThrowCanDamage` is a run in which they do not.
- `commit` and `consume` pass their count through an `int`; they do what they promise exactly when the number of
  bytes they move is below 2^31 (`HugeCommit` is an input for which it is not).
- `str()` does not put IPv6 brackets back, and the constructor from fields does not check them. A URI survives
  printing and parsing exactly when its fields are proper and its host is plain (`ParseStr`); `LoopbackIsLost` is an
  input for which it does not.
- A server URL that does not parse leaves the signal connection in the opening state forever, with no notification
  (`RejectedUrlSticks`); with any other URL a run that is over was signalled exactly unless it ended in a normal
  close or by cancelling the timer (`SignalledExactly`).
- After a close and a second open, a failure that comes before the server confirms the channel is not reported
  to the user, and the control stays attached, because `close_once_` is only reset by that confirmation
  (`ReopenedCloseIsLost`; `CloseReports` has the general statement).
- If a remote peer carries the user's own name, closing everything ends the reports at that peer, or leaves it out if
  a local close was already reported. `CloseReports` gives the reports in every case; they are complete exactly when
  there is no such peer and no local close was reported since the last open. `OwnNameIsMapped` is a run that leads
  to such a peer.
- Replies about channels go through the observer pointer without a check, and so do the user's calls through the
  pointer to the control. In the modelled code a run uses a null pointer exactly if such a reply reaches a control
  that has lost its observer but is kept alive by queued messages, or if the user calls `Close`, `Connect` or
  `Send` before the first open or after the peer has let go of its control (`CrashExactly`, `RunCrashes`;
  `SecondCloseCrashes` and `StaleReplyCrashes` are inputs).

## Model

| member | source | states |
|---|---|---|
| `Words.ShiftRightValue` | src/libs/websocketpp/websocketpp/frame.hpp:612-620 | moving digits down is integer division by a power of 256, so the model's `>>` is the machine's |
| `Words.ShiftLeftValue` | src/libs/websocketpp/websocketpp/frame.hpp:612-620 | moving digits up is multiplication by a power of 256 modulo the word, so the model's `<<` is the machine's |
| `Words.ImageDigit` | src/libs/websocketpp/websocketpp/frame.hpp:60-70 | the byte at address k of a word in memory is its digit of weight 256^k on a little-endian host, counted from the other end on a big-endian one |
| `Words.OrBits` | src/libs/websocketpp/websocketpp/frame.hpp:595-620 | each bit of an or is a one exactly where one of the two has a one |
| `Masking.ByteMask` | src/libs/websocketpp/websocketpp/frame.hpp:641-676 | writes the byte-wise mask at the given key offset, in place or not, and nothing past the length: each bit is inverted exactly where the repeated key has a one |
| `Masking.PreparedInPhase` | src/libs/websocketpp/websocketpp/frame.hpp:595-604 | in memory the prepared key is the four key bytes repeated over the word, for both sizes and byte orders |
| `Masking.CircShiftRotates` | src/libs/websocketpp/websocketpp/frame.hpp:612-620 | either endian branch rotates the memory image of the word left by the offset |
| `Masking.ShiftedInPhase` | src/libs/websocketpp/websocketpp/frame.hpp:606-620 | shifting a 4-periodic key keeps it 4-periodic and advances its phase by the offset |
| `Masking.NarrowedInPhase` | src/libs/websocketpp/websocketpp/frame.hpp:827-835 | truncating the word key to 32 bits keeps the phase, also where the low half is the second half in memory |
| `Masking.NarrowedValue` | src/libs/websocketpp/websocketpp/frame.hpp:827-835 | the truncated key is the word key modulo 2^32 as a number, on either byte order |
| `Masking.WordMaskExact` | src/libs/websocketpp/websocketpp/frame.hpp:699-732 | equals the byte-wise mask with offset 0 for every length, in place or not, and writes exactly length bytes, each bit inverted exactly where the repeated key has a one |
| `Masking.MaskWholeWords` | src/libs/websocketpp/websocketpp/frame.hpp:707-709 | the word loop inverts, in every whole word, exactly the bits where the prepared key in memory has ones, and leaves the rest of input and output alone |
| `Masking.WordMaskCirc` | src/libs/websocketpp/websocketpp/frame.hpp:765-804 | one word-wise circular pass: for a key in phase, each bit is inverted exactly where the key has a one, the returned key has moved on by the length, and the tail is untouched |
| `Masking.ByteMaskCirc` | src/libs/websocketpp/websocketpp/frame.hpp:827-856 | one byte-wise circular pass: the same |
| `Masking.WordPassInPhase` | src/libs/websocketpp/websocketpp/frame.hpp:765-786 | with a key in phase, a word-wise pass is the byte-wise mask at that phase |
| `Masking.BytePassInPhase` | src/libs/websocketpp/websocketpp/frame.hpp:827-838 | with a key in phase, a byte-wise circular pass is the byte-wise mask at that phase |
| `Masking.StreamMasksMessage` | src/libs/websocketpp/websocketpp/frame.hpp:734-838 | for every message, key, platform and mixed split into chunks, feeding keys on gives the bytes of one byte-wise pass and the key rotated by the bytes consumed modulo 4 |
| `Masking.StreamFlipsBits` | src/libs/websocketpp/websocketpp/frame.hpp:734-838 | for any mix of chunks fed from a prepared key, each bit of the message is inverted exactly where the repeated key has a one |
| `Masking.HelloMasked` | src/libs/websocketpp/websocketpp/frame.hpp:641-838 | the masked text message of section 5.7 of RFC 6455, by either form on every platform |
| `Masking.MaskedTwice` | src/libs/websocketpp/websocketpp/frame.hpp:622-652 | masking twice with the same key restores the message |
| `Masking.MaskAndUnmask` | src/libs/websocketpp/websocketpp/frame.hpp:641-732 | masking a buffer in place with the word-wise form and again with the byte-wise form restores it |
| `Masking.StreamUnmasks` | src/libs/websocketpp/websocketpp/frame.hpp:734-838 | what one pass has masked, any mix of circular passes over any chunks restores |
| `FrameHeader.SizeFieldBytes` | src/libs/websocketpp/websocketpp/frame.hpp:260-274 | on every host the size goes out most significant byte first, in two or eight bytes |
| `FrameHeader.BasicRoundTrip` | src/libs/websocketpp/websocketpp/frame.hpp:189-229 | the first two bytes hold opcode, flags, mask bit and size code, each readable by its getter |
| `FrameHeader.EncodedShape` | src/libs/websocketpp/websocketpp/frame.hpp:445-502 | a prepared header is basic header, size field and key, of the length the first two bytes announce |
| `FrameHeader.ExtendedRoundTrip` | src/libs/websocketpp/websocketpp/frame.hpp:516-585 | size and key are read back from the extended header across hosts of different byte order |
| `FrameHeader.DecodeEncode` | src/libs/websocketpp/websocketpp/frame.hpp:189-585 | every opcode, flags, mask bit, key and 64-bit size, followed by arbitrary bytes, decodes to the same values; length 2 to 14, fixed by the first two bytes |
| `FrameHeader.EncodeDecode` | src/libs/websocketpp/websocketpp/processors/hybi13.hpp:904-922 | re-encoding what was read never needs more bytes, and restores the wire bytes exactly when the receiver's non-minimal-size check accepts them: the encoder emits the shortest form |
| `FrameHeader.EncodedOnWire` | src/libs/websocketpp/websocketpp/frame.hpp:189-274 | every header on the wire: flags and opcode bit by bit, the mask bit, the size or 126 or 127, the size in two or eight bytes most significant first, and the key |
| `FrameHeader.DecodedFromWire` | src/libs/websocketpp/websocketpp/frame.hpp:516-585 | for any bytes: whether there are enough, how many are taken (2, 4 or 10, and 4 for a key), and every field in terms of the bytes |
| `FrameHeader.NonMinimalOnWire` | src/libs/websocketpp/websocketpp/processors/hybi13.hpp:904-922 | the check fires exactly for two bytes of size up to 125 and eight bytes of size up to 65535 |
| `FrameHeader.TextExamples` | src/libs/websocketpp/websocketpp/frame.hpp:189-274 | the text headers of section 5.7 of RFC 6455 |
| `FrameHeader.BinaryExamples` | src/libs/websocketpp/websocketpp/frame.hpp:189-274 | the 256-byte and 64-KiB headers of section 5.7 of RFC 6455 |
| `Utf8.TypeTable` | src/libs/websocketpp/websocketpp/utf8_validator.hpp:45-54 | the byte half of the table holds the range-based byte types |
| `Utf8.StateTable` | src/libs/websocketpp/websocketpp/utf8_validator.hpp:55-59 | the state half of the table holds the range-based transitions |
| `Utf8.StepByRange` | src/libs/websocketpp/websocketpp/utf8_validator.hpp:69-78 | one `decode` call, in terms of byte ranges instead of table lookups |
| `Utf8.PayloadBits` | src/libs/websocketpp/websocketpp/utf8_validator.hpp:72-74 | the first byte of a type contributes its low 8 - type bits |
| `Utf8.RejectAbsorbs` | src/libs/websocketpp/websocketpp/utf8_validator.hpp:55-59 | no input leads out of reject |
| `Utf8.EncodeCharValue` | src/libs/websocketpp/websocketpp/utf8_validator.hpp:72-74 | each character of the grammar spells a scalar value (no overlongs, surrogates or values above U+10FFFF) that encodes back to it |
| `Utf8.CharValueEncode` | src/libs/websocketpp/websocketpp/utf8_validator.hpp:72-74 | each scalar value encodes to a character of the grammar that spells it |
| `Utf8.CharAccepts` | src/libs/websocketpp/websocketpp/utf8_validator.hpp:69-78 | reading one character from accept ends in accept with its scalar value as code point, without 32-bit overflow |
| `Utf8.ValidIsWellFormed` | src/libs/websocketpp/websocketpp/utf8_validator.hpp:143-149 | the automaton accepts exactly the concatenations of characters of section 4 of RFC 3629 |
| `Utf8.CodepointsEncodeBack` | src/libs/websocketpp/websocketpp/utf8_validator.hpp:69-118 | the code points at the accept points of a valid string are scalar values and re-encode to that string |
| `Utf8.EncodedIsReported` | src/libs/websocketpp/websocketpp/utf8_validator.hpp:69-118 | every sequence of scalar values encodes to a valid string whose reported code points are that sequence |
| `Utf8.FeedIsRun` | src/libs/websocketpp/websocketpp/utf8_validator.hpp:104-118 | stopping at the first rejected byte gives the state of the full pass, and an error exactly when the range ends in reject |
| `Utf8.FeedStops` | src/libs/websocketpp/websocketpp/utf8_validator.hpp:104-118 | with an error, state and code point are those right after the first rejected byte |
| `Utf8.FeedAllIsRun` | src/libs/websocketpp/websocketpp/utf8_validator.hpp:104-118 | the state after any split into chunks is that of one pass |
| `Utf8.StreamIsWellFormed` | src/libs/websocketpp/websocketpp/utf8_validator.hpp:104-126 | `complete` after any chunked run says whether all bytes together are well-formed |
| `Utf8.RejectsEarliest` | src/libs/websocketpp/websocketpp/utf8_validator.hpp:81-126 | the state is not reject exactly while some continuation is well-formed |
| `Utf8.Validator.constructor` | src/libs/websocketpp/websocketpp/utf8_validator.hpp:84-84 | starts in accept with code point 0 |
| `Utf8.Validator.Consume` | src/libs/websocketpp/websocketpp/utf8_validator.hpp:91-96 | one step of the automaton; false exactly on reject |
| `Utf8.Validator.Decode` | src/libs/websocketpp/websocketpp/utf8_validator.hpp:104-118 | the loop leaves state, code point and result of the specification, and the state of a full pass |
| `Utf8.Validator.Reset` | src/libs/websocketpp/websocketpp/utf8_validator.hpp:129-132 | back to the initial state |
| `Utf8.Validate` | src/libs/websocketpp/websocketpp/utf8_validator.hpp:143-149 | returns whether the string is in the grammar |
| `CloseFrame.AcceptedPayloads` | src/libs/websocketpp/websocketpp/close.hpp:283-337 | both extractors succeed exactly on the empty payload and on a code in 1000-1003, 1007-1013 or 3000-4999 followed by well-formed UTF-8 |
| `CloseFrame.ExtractComposed` | src/libs/websocketpp/websocketpp/close.hpp:283-337 | code and reason are recovered from any payload of two or more bytes, with errors exactly for bad codes and bad UTF-8 |
| `CloseFrame.ExtractedInNumbers` | src/libs/websocketpp/websocketpp/close.hpp:283-337 | the code as a number, which error goes with which code, the codes 1005 and 1002 for short payloads, and the reason |
| `CloseFrame.PreparedIsExtracted` | src/libs/websocketpp/websocketpp/processors/hybi13.hpp:674-708 | exactly when a close can be sent; the receiver then extracts the same code and reason and accepts them exactly if the reason is UTF-8 |
| `CloseFrame.PreparedInNumbers` | src/libs/websocketpp/websocketpp/processors/hybi13.hpp:674-708 | the payload byte by byte, and which error prevents which close |
| `CloseFrame.UncheckedReason` | src/libs/websocketpp/websocketpp/processors/hybi13.hpp:674-708 | a reason that is sent without an error and refused by the receiver |
| `BuffersIterator.PlaceUnique` | src/libs/asio/include/asio/buffers_iterator.hpp:306-310 | the position alone determines buffer and offset, so comparing positions compares places |
| `BuffersIterator.PlaceInRange` | src/libs/asio/include/asio/buffers_iterator.hpp:300-304 | a kept place is at the end exactly when its position is the total size; otherwise the byte there is the flat string's |
| `BuffersIterator.Iterator.Begin` | src/libs/asio/include/asio/buffers_iterator.hpp:127-144 | skips leading empty buffers; position 0 |
| `BuffersIterator.Iterator.End` | src/libs/asio/include/asio/buffers_iterator.hpp:147-163 | position is the total size |
| `BuffersIterator.Iterator.Dereference` | src/libs/asio/include/asio/buffers_iterator.hpp:301-304 | the byte of the flat string at the position |
| `BuffersIterator.Iterator.Increment` | src/libs/asio/include/asio/buffers_iterator.hpp:313-333 | keeps the invariant and moves one byte on, across any empty buffers |
| `BuffersIterator.Iterator.Decrement` | src/libs/asio/include/asio/buffers_iterator.hpp:336-363 | keeps the invariant and moves one byte back, across any empty buffers |
| `BuffersIterator.Iterator.Advance` | src/libs/asio/include/asio/buffers_iterator.hpp:366-445 | keeps the invariant and moves by any signed distance in range |
| `BuffersIterator.Iterator.AdvanceForward` | src/libs/asio/include/asio/buffers_iterator.hpp:368-401 | the forward loop terminates at the target position |
| `BuffersIterator.Iterator.AdvanceBackward` | src/libs/asio/include/asio/buffers_iterator.hpp:402-444 | the backward loop terminates at the target position and never gets stuck before the first buffer |
| `BuffersIterator.Iterator.DistanceTo` | src/libs/asio/include/asio/buffers_iterator.hpp:448-451 | the signed distance, zero exactly for the same place |
| `BuffersIterator.AdvanceIsSteps` | src/libs/asio/include/asio/buffers_iterator.hpp:366-445 | advancing by n and taking n single steps end at the same buffer and offset |
| `BufferCopy.CopiedUnique` | src/libs/asio/include/asio/buffer.hpp:1241-1273 | the outcome of a copy of n bytes is determined, also where target buffers overlap each other, so all overloads agree |
| `BufferCopy.CopiedContents` | src/libs/asio/include/asio/buffer.hpp:1241-1273 | the source is unchanged; the flat target, if its bytes are distinct, takes over the first n source bytes and keeps its rest |
| `BufferCopy.LimitAgrees` | src/libs/asio/include/asio/buffer.hpp:1761-1765 | limiting through `buffer(target, max)` is the same as limiting the number of bytes |
| `BufferCopy.SourceLimitAgrees` | src/libs/asio/include/asio/buffer.hpp:2060-2065 | limiting through `buffer(source, max)` is the same as limiting the number of bytes |
| `BufferCopy.CursorStretch` | src/libs/asio/include/asio/buffer.hpp:442-454 | a buffer plus an offset inside it is the next stretch of the flat addresses |
| `BufferCopy.CopyOneToOne` | src/libs/asio/include/asio/buffer.hpp:1295-1304 | copies the lesser of the two sizes |
| `BufferCopy.CopyGather` | src/libs/asio/include/asio/buffer.hpp:1402-1421 | many sources to one target: copies the lesser total, and terminates with empty buffers |
| `BufferCopy.CopyScatter` | src/libs/asio/include/asio/buffer.hpp:1573-1592 | one source to many targets: copies the lesser total, and terminates with empty buffers |
| `BufferCopy.CopyMany` | src/libs/asio/include/asio/buffer.hpp:1693-1736 | many to many: copies the lesser total as one flat prefix copy, and terminates |
| `BufferCopy.CopyManyLimited` | src/libs/asio/include/asio/buffer.hpp:2186-2231 | many to many with a limit: copies the least of both totals and the limit as one flat prefix copy, and terminates |
| `StreamBuf.StreamBuf.constructor` | src/libs/asio/include/asio/basic_streambuf.hpp:131-141 | an empty buffer that respects the maximum size |
| `StreamBuf.StreamBuf.Size` | src/libs/asio/include/asio/basic_streambuf.hpp:158-161 | the number of bytes held, at most the maximum |
| `StreamBuf.ToIntWrap` | src/libs/asio/include/asio/basic_streambuf.hpp:227-244 | any count is reduced modulo 2^32 into the range of an `int` |
| `StreamBuf.StreamBuf.Reserve` | src/libs/asio/include/asio/basic_streambuf.hpp:299-337 | throws exactly when size plus n exceeds the maximum; otherwise compaction and growth leave the data alone and make room, and the put area too if it was big enough; after a throw the data is smeared and the put area unchanged |
| `StreamBuf.StreamBuf.Prepare` | src/libs/asio/include/asio/basic_streambuf.hpp:204-209 | fails exactly when size plus n exceeds the maximum; otherwise n bytes of room right after the data; a put area that is big enough keeps its contents |
| `StreamBuf.StreamBuf.Commit` | src/libs/asio/include/asio/basic_streambuf.hpp:223-229 | moves the first min(n, room) bytes of the put area to the end of the data, exactly when that count is below 2^31 |
| `StreamBuf.StreamBuf.Consume` | src/libs/asio/include/asio/basic_streambuf.hpp:238-245 | drops the first min(n, size) bytes and leaves the put area alone, exactly when that count is below 2^31 |
| `StreamBuf.StreamBuf.Underflow` | src/libs/asio/include/asio/basic_streambuf.hpp:254-265 | the first byte or end-of-file, without changing the data |
| `StreamBuf.StreamBuf.Overflow` | src/libs/asio/include/asio/basic_streambuf.hpp:274-297 | appends the character; fails exactly when the buffer holds its maximum, whichever growth request it makes, and then changes nothing |
| `StreamBuf.Perform` | src/libs/asio/include/asio/basic_streambuf.hpp:204-297 | every operation is one step of a bounded FIFO with a put area, answers as that says, and throws exactly when that would overflow |
| `StreamBuf.AnswersMean` | src/libs/asio/include/asio/basic_streambuf.hpp:204-297 | what throws, and that a peek answers with the first byte or end-of-file |
| `StreamBuf.Run` | src/libs/asio/include/asio/basic_streambuf.hpp:204-297 | any interleaving of prepare, writes to the put area, commit, put, consume and peek is a run of the bounded FIFO with its answers, also past operations that threw; it is only cut short in front of an operation that moves 2^31 bytes or more |
| `StreamBuf.FifoConserves` | src/libs/asio/include/asio/basic_streambuf.hpp:62-68 | in every run, the bytes put in are the bytes taken out followed by the bytes still there, unless a prepare threw; and even then as many |
| `StreamBuf.ReadAppends` | src/libs/asio/include/asio/basic_streambuf.hpp:88-103 | room for n bytes, some of which arrive and are committed in two portions: they follow the data in the order of arrival |
| `StreamBuf.SurvivesThrow` | src/libs/asio/include/asio/basic_streambuf.hpp:312-331 | any n bytes survive a throw with g bytes consumed before them exactly when g is 0 or at least n |
| `StreamBuf.ThrowCanDamage` | src/libs/asio/include/asio/basic_streambuf.hpp:312-331 | a buffer of four bytes, one consumed, on which a prepare throws and changes the data |
| `StreamBuf.HugeCommit` | src/libs/asio/include/asio/basic_streambuf.hpp:223-229 | committing 2^31 bytes puts the put pointer 2^31 positions in front of the buffer |
| `Uri.ScanHost` | src/libs/websocketpp/websocketpp/uri.hpp:81-136 | the host scan finds the host of the specification, bracketed or not, or fails where it fails |
| `Uri.ScanPort` | src/libs/websocketpp/websocketpp/uri.hpp:138-153 | the port scan finds the text up to the next slash |
| `Uri.ParseString` | src/libs/websocketpp/websocketpp/uri.hpp:50-167 | the one-pass scanner computes the specification for every string |
| `Uri.SpellingParses` | src/libs/websocketpp/websocketpp/uri.hpp:50-167 | every legal spelling - scheme, host with or without brackets, perhaps a port, perhaps a rest - is parsed to these fields if its port is a number in range, and refused otherwise |
| `Uri.ParsedIsSpelled` | src/libs/websocketpp/websocketpp/uri.hpp:50-167 | nothing but legal spellings is accepted |
| `Uri.AtoiSpelled` | src/libs/websocketpp/websocketpp/uri.hpp:320-340 | a port may be written with blanks and a sign before and anything but a digit after the number |
| `Uri.AtoiNothing` | src/libs/websocketpp/websocketpp/uri.hpp:320-340 | without a digit the number is zero, so the port is refused |
| `Uri.PrintedAs` | src/libs/websocketpp/websocketpp/uri.hpp:273-284 | what is printed, the port only if it is not 443 or, without security, 80 |
| `Uri.NoLeadingZero` | src/libs/websocketpp/websocketpp/uri.hpp:277-281 | a port is printed without leading zeros |
| `Uri.FieldsKept` | src/libs/websocketpp/websocketpp/uri.hpp:198-213 | the constructor keeps the fields, an empty resource becoming the root |
| `Uri.PortPrinted` | src/libs/websocketpp/websocketpp/uri.hpp:320-340 | a printed port between 1 and 65535 is read back |
| `Uri.ParseStr` | src/libs/websocketpp/websocketpp/uri.hpp:273-284 | any URI survives printing and parsing exactly when its scheme, security flag, port and resource are proper and its host has no colon, slash or leading bracket |
| `Uri.FieldsRoundTrip` | src/libs/websocketpp/websocketpp/uri.hpp:198-213 | the same for any URI built from its fields: known scheme, port in range, resource empty or rooted, plain host |
| `Uri.ParsedIsProper` | src/libs/websocketpp/websocketpp/uri.hpp:50-167 | every parsed URI has a known scheme, matching security flag, port in range and rooted resource; a host without brackets is plain |
| `Uri.ParsePrintParse` | src/libs/websocketpp/websocketpp/uri.hpp:50-284 | for every string that parses: printing and parsing again gives the same URI exactly when the host is plain, always so without brackets |
| `Uri.BracketsAreLost` | src/libs/websocketpp/websocketpp/uri.hpp:85-119 | every bracketed literal, with any scheme, port and resource, parses to its content and is lost in printing exactly when it needed the brackets |
| `Uri.LoopbackIsLost` | src/libs/websocketpp/websocketpp/uri.hpp:273-284 | the bracketed loopback address does not survive |
| `Signal.NextDelayBounds` | src/signalconnection.cc:279-284 | the delay lies between the configured delay and maximum and never decreases with the attempt number |
| `Signal.ExactDelays` | src/signalconnection.cc:279-284 | the delay grows by half per attempt up to the maximum, without rounding where the configured delay allows it |
| `Signal.NoMoreGrowth` | src/signalconnection.cc:279-284 | from the 32nd attempt on the delay stays |
| `Signal.DelaysStayOrdered` | src/signalconnection.h:111-113 | delay stays at most the maximum under any sequence of setter calls |
| `Signal.InvHolds` | src/signalconnection.cc:152-381 | connection state, timer, attempt counter and what the library still owes stay consistent in every run |
| `Signal.AttemptsBounded` | src/signalconnection.cc:262-381 | in every run after a Connect: at most one attempt more than the limit, at most one closed signal, total wait at most limit times maximal delay |
| `Signal.DefaultDelays` | src/signalconnection.cc:279-284 | with the built-in settings the delays are 5000, 7500, 11250, 16875 and then always 25000 |
| `Signal.FailingRun` | src/signalconnection.cc:347-381 | if every attempt fails, whatever the user calls meanwhile, the run ends after exactly limit + 1 attempts with exactly one signal, and not before, having waited the sum of the scheduled delays |
| `Signal.OpenedRun` | src/signalconnection.cc:287-345 | after an attempt has opened there are no more attempts; the connection ends with one close, signalled exactly when its code is not normal |
| `Signal.SignalledExactly` | src/signalconnection.cc:262-381 | with a URL that parses, every run is over exactly when the state is closed and no timer is set, and then raised one signal, or none exactly if it had a normal close or a cancelled timer; no signal before that |
| `Signal.RejectedUrlSticks` | src/libs/websocketpp/websocketpp/roles/client_endpoint.hpp:119-128 | with a URL that does not parse, every run stays at opening after its one attempt, without a signal |
| `Signal.SignalReachable` | src/signalconnection.cc:226-238 | a run that is signalled exists exactly when the URL parses |
| `Signal.EverythingHappens` | src/signalconnection.cc:262-381 | opening, closing with any code, failing, retrying and cancelling all occur in runs, and the close of an opened connection signals unless its code is 1000 |
| `Signal.SignalConnection.constructor` | src/signalconnection.cc:18-25 | the URL or the built-in one, closed, three attempts, delays 5000 and 25000 |
| `Signal.SignalConnection.SetReconnectDelay` | src/signalconnection.h:112-112 | sets the delay and raises the maximum to it if that is smaller |
| `Signal.SignalConnection.SetReconnectDelayMax` | src/signalconnection.h:113-113 | sets the maximum and lowers the delay to it if that is larger |
| `Signal.SignalConnection.Connect` | src/signalconnection.cc:152-184 | ignored while opening or opened; otherwise a fresh first attempt, after everything owed by the last connection has been delivered |
| `Signal.SignalConnection.Close` | src/signalconnection.cc:70-83 | only an opened connection starts closing |
| `Signal.SignalConnection.SyncClose` | src/signalconnection.cc:86-106 | starts closing an opened connection and returns when everything owed has been delivered |
| `Signal.SignalConnection.Join` | src/signalconnection.cc:162-169 | delivers what the library owes, handler by handler, as one run of the specification |
| `Signal.SignalConnection.ConnectInternal` | src/signalconnection.cc:226-240 | drops the attempt exactly if the URL does not parse |
| `Signal.SignalConnection.TimeoutReconnect` | src/signalconnection.cc:262-277 | a timer that ran out on a closed connection starts the next attempt |
| `Signal.SignalConnection.HandleOpen` | src/signalconnection.cc:287-295 | opened, with the attempt counter reset |
| `Signal.SignalConnection.HandleClose` | src/signalconnection.cc:298-345 | closed, and signalled unless the code is normal |
| `Signal.SignalConnection.HandleFail` | src/signalconnection.cc:347-381 | closed, with a timer while attempts are left and the signal otherwise |
| `StringOrder.Walk` | src/control.cc:147-151 | the keys of the peer map, each once, in ascending order |
| `StringOrder.BelowMeans` | src/control.h:105-105 | ascending: a prefix comes first, otherwise the smaller character where two keys first differ |
| `Session.ClosePeerEffect` | src/control.cc:171-203 | closing a mapped peer: entry gone, one notification, one leavechannel |
| `Session.NextInv` | src/control.cc:311-341 | every step of a control keeps the invariant: each entry has its key as remote id, a live connection and is connecting or open; per id, insertions equal close notifications plus one if still mapped, and leavechannels equal notifications, however many duplicate closes are queued |
| `Session.CloseEmpties` | src/control.cc:128-169 | executing a close empties the map |
| `Session.CloseReports` | src/control.cc:128-169 | what the user sees of a close: every mapped peer once, with the code, in map order, up to a peer with the user's own name, and then the local close; without that peer and without the local close if one was reported since the last open; complete exactly if neither applies |
| `Session.NextDetached` | src/control.cc:240-305 | once the observer is gone, a step of the control reports nothing and does not bring it back, and only deliveries use up the messages that keep the control alive |
| `Session.CrashExactly` | src/control.cc:534-591 | a message goes through a null pointer exactly when it is a channel reply to be reported while the observer is gone; calls through peers never do |
| `SessionEffects.RepliesAreCloses` | src/control.cc:534-594 | a channel that cannot be created or joined is reported as a close with a signal error: local without a result or name and for the own name, nameless for a join |
| `SessionEffects.CreatedOpens` | src/control.cc:560-560 | a created channel calls the open handler and lets the next local close be reported, and nothing else |
| `SessionEffects.AcceptedAsks` | src/control.cc:505-531 | once accepted, the user's channel is asked for |
| `SessionEffects.NothingChanges` | src/control.cc:347-391 | a joined channel, an answer, a candidate and commands without effect change nothing |
| `SessionEffects.UnobservedReply` | src/control.cc:534-591 | any other reply about a channel without observer is a null pointer, and nothing else |
| `SessionEffects.OnePeerCloses` | src/control.cc:171-203 | exactly that entry goes, with one notification and one leavechannel, and its close is reported under the observer's rules; nothing for an unknown peer |
| `SessionEffects.CloseExecuted` | src/control.cc:128-169 | the map becomes empty, each peer is notified and left in map order, and an observer not yet told of a local close is told and gone |
| `SessionEffects.OffersAdded` | src/control.cc:614-641 | for any list: the peers of the longest good prefix enter the map unless known, connecting, logged once each in order; the entry after it is reported as an abnormal close exactly if it is well-formed |
| `SessionEffects.TwoOffers` | src/control.cc:622-638 | two new peers in one command both enter, in order |
| `SessionEffects.OfferSdpAdded` | src/control.cc:647-667 | an offer from another peer adds that peer, or reports its abnormal close |
| `SessionEffects.CallbackEffects` | src/peer.cc:258-310 | what posting, opening, disconnecting, a message and writability do to map, queue and user |
| `SessionEffects.DeliverEffect` | src/control.cc:311-341 | the oldest message is taken and handled; without observer this uses up one of the messages that hold the control |
| `SessionEffects.NoStep` | src/control.cc:44-53 | a destroyed control takes no step |
| `SessionRuns.RunInv` | src/peerapi.cc:56-111 | in every run, through any openings and closings, every control the peer has or has had keeps the invariant of the session, and the messages that keep a detached control alive are in its queue |
| `SessionRuns.SilentUntilReopened` | src/peerapi.cc:236-262 | from the local close until the next open nothing is reported to the user, whatever any control still does |
| `SessionRuns.RunCrashes` | src/peerapi.cc:102-145 | a run uses a null pointer exactly if it delivers an unobserved channel reply to a control that still exists, the last one or an earlier one, or if the user calls Close, Connect or Send while the peer has no control |
| `SessionRuns.OneCloseBetweenOpens` | src/peerapi.cc:226-262 | in every run, through any reopenings, there is an open event between any two local close events |
| `SessionRuns.OpenEffect` | src/peerapi.cc:56-100 | an open is ignored while there is a control, else gives a new, empty one; what the user was told stays, and the old one goes on while a message holds it |
| `SessionRuns.UserClosesAll` | src/peerapi.cc:102-112 | closing the own name or none, once handled: no peer left, each notified and left in map order, the observer gone unless told before, and the user told as by CloseReports |
| `SessionRuns.UserClosesPeer` | src/peerapi.cc:102-112 | closing another peer, once handled: exactly that entry is gone, the control stays attached, and the user is told of that normal close only |
| `SessionRuns.OtherCalls` | src/peerapi.cc:114-144 | connecting asks for the peer's channel, sending leaves the session alone |
| `SessionRuns.DetachedEffect` | src/control.h:120-130 | a step of an earlier control changes that control only |
| `SessionRuns.SecondCloseCrashes` | src/peerapi.cc:102-105 | open, a close that is delivered, and a second Close by the user: a null pointer is used |
| `SessionRuns.StaleReplyCrashes` | src/control.h:120-130 | a channel reply queued behind the close uses a null pointer even after the user has opened the peer again |
| `SessionRuns.ReopenedCloseIsLost` | src/peerapi.cc:236-262 | a run in which a reopened peer's failure is not reported and the control stays attached |
| `SessionRuns.OwnNameIsMapped` | src/control.cc:614-638 | a run that puts a peer with the user's own name into the map |
| `PeerObjects.Lifetime.Open` | src/peerapi.cc:56-100 | on the objects, `Open` is the step of the runs: ignored, or a new control beside those that queued messages still hold |
| `PeerObjects.Lifetime.Close` | src/peerapi.cc:102-112 | on the objects, `Close` is the step of the runs; it needs exactly that this step is not fatal |
| `PeerObjects.Lifetime.OnMessage` | src/control.cc:311-341 | on the objects, handling a message by the last control or an earlier one is the step of the runs, and leaves all other controls alone |
| `PeerSignal.RunInv` | src/control.cc:393-406 | in every run of both together, the session has been through a run of its own, and so has the connection since its last accepted Connect |
| `PeerSignal.OneCloseSignalPerConnect` | src/signalconnection.cc:298-381 | in every run, closed signals never outnumber accepted Connects, and each is posted at most once to the user's control |
| `PeerSignal.OneLocalClosePerOpen` | src/peerapi.cc:226-262 | in every run, however often the connection fails, the user is told of at most one local close between two opens |
| `PeerSignal.EndIsTold` | src/control.cc:399-406 | when a connection with an accepted URL is over, exactly one close has been posted for it, or none exactly if it ended quietly; a failure with the normal code aside |
| `PeerSignal.HandlerEffect` | src/control.cc:399-406 | which handler calls count as a closed signal, and which post a close, to every control that exists, behind what it has queued |
| `PeerSignal.OpenEffects` | src/signalconnection.cc:152-184 | what opening and connecting do to both parts |
| `PeerSignal.FailureReachesUser` | src/signalconnection.cc:347-381 | from end to end: a failed connection becomes one local close for the user |
| `SessionObjects.PeerConnection.constructor` | src/peer.cc:20-31 | a closed peer without a connection |
| `SessionObjects.PeerConnection.Close` | src/peer.cc:92-119 | drops the connection and asks for a notification unless already closing or closed |
| `SessionObjects.UserPeer.OnOpen` | src/peerapi.cc:226-234 | allows the next local close and calls the handler |
| `SessionObjects.UserPeer.OnClose` | src/peerapi.cc:236-262 | the local close passes once, detaches the control and drops the pointer to it; remote closes always pass |
| `SessionObjects.UserPeer.Open` | src/peerapi.cc:56-76 | ignored while there is a control, otherwise a new control that observes for this peer |
| `SessionObjects.UserPeer.Close` | src/peerapi.cc:102-112 | queues a close of everything for the own name or none, and of one peer otherwise |
| `SessionObjects.UserPeer.Connect` | src/peerapi.cc:114-118 | asks for the peer's channel and changes nothing else |
| `SessionObjects.Control.constructor` | src/control.cc:36-42 | an empty control, not yet observed |
| `SessionObjects.Control.OnPeerClose` | src/control.cc:250-271 | the step of the specification |
| `SessionObjects.Control.EraseAndClose` | src/control.cc:186-197 | removes and closes one peer object and no other |
| `SessionObjects.Control.ClosePeer` | src/control.cc:171-203 | the step of the specification, on the objects |
| `SessionObjects.Control.CollectIds` | src/control.cc:147-151 | the remote ids in map order |
| `SessionObjects.Control.CloseEach` | src/control.cc:155-158 | the close loop of the specification |
| `SessionObjects.Control.Close` | src/control.cc:128-169 | the step of the specification, on the objects |
| `SessionObjects.Control.InsertPeer` | src/control.cc:629-637 | a new connecting peer, unless the id is taken: the map keeps the older entry |
| `SessionObjects.Control.CreateOffer` | src/control.cc:614-667 | the loop of the specification, stopping at the first bad entry or failed initialization |
| `SessionObjects.Control.OnChannelReply` | src/control.cc:534-594 | the reports of the specification |
| `SessionObjects.Control.OnOpen` | src/control.cc:505-531 | asks for the user's channel exactly if the server has accepted the user |
| `SessionObjects.Control.OnCommandReceived` | src/control.cc:347-391 | the dispatch of the specification |
| `SessionObjects.Control.OnMessage` | src/control.cc:311-341 | taking and handling one message is one step of the session and keeps its invariant |
| `SessionObjects.Control.OnPeerOpened` | src/peer.cc:258-275 | the peer is open, and the user is told |
| `SessionObjects.Control.OnPeerDisconnected` | src/peer.cc:277-295 | queues a close for the peer unless it is closing or closed |

## Left out

- WebRTC itself (SDP, ICE, data channels) and the signalling server: their callbacks and replies are environment steps.
- The sending side of data channels, including the condition variable in `SyncSend`: it depends on when WebRTC calls back.
- JSON parsing: a malformed command, and a command with no effect on the session (`channelleave`), are the `NoEffect` command.
- Sending to the server: what a control asks for is recorded when it is handed to the connection, which drops it unless it is open.
- Assertions that only debug builds check, such as the state checks in `PeerControl`; a duplicate peer that loses the race for its id trips the one in its destructor.
- SessionRuns.WorldNext: the messages of different controls are delivered in any order, which includes the order of the one queue they share.
- `Peer::Open` when `InitializeControl` fails: the peer drops the control without detaching itself from it.
- User calls from inside an event handler, other than those that only queue a message.
- PeerObjects.Lifetime.OnMessage: the callbacks from WebRTC are proved on each control object by itself, not on all controls together.
- PeerSignal.CoupledNext: the server's replies are not tied to the state of the connection; any may come at any time.
- PeerConnection: `SetRemoteDescription`, `SetLocalDescription` and candidates are only modelled as uses of the connection pointer.
- SessionObjects.PeerConnection.Close: the callback into the control is a returned flag that the control acts on at once.
- Signal: the network thread is modelled only by what joining it guarantees; `set_reconnect_attempts` during a run is not a step, since the bounds are for a fixed limit.
- Signal.Enabled: `get_connection` failing for other reasons than the URL (no memory for a connection).
- NextDelay: uses exact reals in place of `double`.
- Atoi: a number too large for `int` is undefined behaviour in C and an invalid port in the model.
- Utf8.Payload: the bit operations of `decode` are written as remainders and sums.
- BufferCopy.CopyOneToOne: the address lists and the number of bytes done so far are ghost parameters, so that one contract serves all the loops.
- BufferCopy: target buffers that overlap a source are excluded, as the documentation of `buffer_copy` does.
- StreamBuf.Run: stops in front of an operation that moves 2^31 bytes or more; `Commit` and `Consume` say where the pointers end up then.
- The setters of single header bits, the URI getters, `buffers_iterator` comparison operators other than through `DistanceTo`: they would only add easy members.
- Extension negotiation, opening handshakes, message assembly and all sockets, timers and logging.
