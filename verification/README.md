# The decision layer of the device, verified

This project models the part of the firmware where bytes become actions: the event stream of a reply and the
turn that interprets it, the two JSON readers and the bounded printer, the request router, and the protocols
that connect a request to a recording, a conversation and a loudspeaker. It does so in Dafny 4.11, and proves
what that code is for. `dafny verify dfyconfig.toml` checks everything.

## How it is built

Code that changes fields and buffers step by step is modelled as classes over arrays (`SseReader`,
`SpeechSegmenter`, `ConversationTurn`, `JsonWriter`, `ScanParams`, `Router`, `PlaybackStager`, `PlayerMachine`,
`NetworkPolicyMachine`) and as cursor-advancing methods (both JSON scanners, the base64 decoder, the exchange
with the gateway). Every such method is proved equal to a function of the old state; the promises of the source
are proved about those functions, and, where a function follows the steps of its method, what it comes to is said
again without those steps (`RouterAnswers`, `EventMeaning`, `ConverseMeaning`, `PlaybackHeard`, `HandoverServed`). Code that several threads run is a step machine whose invariants hold in every
interleaving.

| files | what they hold |
|---|---|
| `Bytes.dfy` | byte strings, positions in a text, copying between buffers |
| `JsonGrammar.dfy`, `JsonParse.dfy`, `JsonLookup.dfy` | the grammar of RFC 8259 as syntax trees; reading a text is proved sound and complete for it; looking up members |
| `JsonChecked.dfy`, `JsonLenient.dfy`, `JsonRead.dfy`, `JsonMeaning.dfy` | the strict walk, the lenient scanner, the typed readers, and what these read off a syntax tree |
| `JsonWriter.dfy`, `JsonBrackets.dfy`, `JsonRoundTrip.dfy`, `JsonSize.dfy`, `JsonObjects.dfy` | the bounded printer, when a page is valid, that printer and readers undo each other, how long printed values are, printed objects member by member |
| `Base64.dfy` | section 4 of RFC 4648 |
| `SseSpec.dfy`, `SseStandard.dfy`, `SseFrames.dfy`, `Sse.dfy` | events byte by byte; the event stream of section 9.2 of the WHATWG HTML standard, and where the reader parts from it; the gateway's frames; the queue |
| `SpeechSpec.dfy`, `SpeechMeaning.dfy`, `SpeechEnds.dfy`, `SpeechMarks.dfy`, `Utf8.dfy`, `SpeechQueue.dfy`, `Speech.dfy` | cutting speech into sentences, against a look-ahead reference; which bytes end one; the expression that the last marker asks for and the one announced last; UTF-8; room in the queue |
| `Protocol.dfy`, `ConversationSpec.dfy`, `Conversation.dfy`, `EventMeaning.dfy`, `Converse.dfy`, `ConverseMeaning.dfy` | error codes, the turn and what each event does to it, the exchange with the gateway and when it reads a reply |
| `ReplyRoundTrip.dfy`, `ReplyPlayed.dfy` | the whole pipeline at once: a reply as the gateway prints it, as the listener hears it, and as the loudspeaker plays it |
| `ConversationStart.dfy`, `Envelope.dfy`, `RequestRouter.dfy`, `RouterAnswers.dfy` | command arguments, envelopes, routing, and what the sender of a request reads in the answer |
| `Playback.dfy`, `PlaybackHeard.dfy`, `Handover.dfy`, `HandoverServed.dfy`, `Cancellation.dfy`, `NetworkPolicy.dfy` | playing sentences and what is heard of them, handing a request to the task and how it is served, cancelling, reconnecting |

A byte string is a Dafny `string` whose characters stand for bytes. Integers are unbounded; where the source
relies on 32-bit words (`NetworkPolicy`, the clock of `PlaybackStager` and of the exchange) or on 64-bit ranges
(`JsonWriter`, `JsonRead`) that is written out.

## What the proofs found

- One line of the stream shares its 8192-byte buffer with the field name, so an event that comes on one `data: `
  line is delivered only up to 8186 bytes, although the interface document allows 8192
  (docs/api/device-interface.md:421). `SseFrames.OneLineLimit` is the exact condition.
- The reader dispatches an unterminated last event when the stream ends, which the standard discards
  (`SseStandard.UnendedIsDelivered`). A stream read to its end gives what the standard dispatches if and only if no
  data is pending at its end, or, where a byte order mark has spoilt an event, if what is pending makes up for it
  (`SseStandard.EndAgrees`).
- The reader does not remove a byte order mark, so the mark spoils the first line and can hide an event
  (`SseStandard.MarkHidesEvent`). `SseStandard.MarkAgrees` says exactly for which streams it makes a difference.
- `json_find_integer` adds up digits in 64 bits without a check. Digits over 2^63-1 may read as anything, so an audio
  event numbered 2^64 may be taken for event 0 (`ReplyRoundTrip.OverflowIsAccepted`), and the most negative 64-bit
  integer, which the printer prints, does not read back (`JsonRoundTrip.IntegerReadsBack`).
- `base64_decode` ignores the bits that padding cuts off: decoding after encoding is the identity, encoding after
  decoding is exactly when those bits are zero (`Base64.EncodeDecode`).
- A shutdown survives `reset` and `clear_emergency`, but an emergency stop replaces it and clearing that stop
  leaves no reason at all. In any interleaving a shutdown is forgotten if and only if an emergency stop has returned
  and after it a clear_emergency (`Cancellation.RunForgets`).
- The speech queue has 512 bytes, and so has the text of an event, but each sentence costs two bytes more than its
  length. A drained segmenter loses a sentence exactly when the sentences that one event finishes cost more than
  that (`SpeechQueue.LosesExactly`); one event with 171 exclamation marks does (`ReplyRoundTrip.ShoutsAreLost`).
- A marker "selects the expression used for that sentence" (docs/api/device-interface.md:462-463), but a sentence
  that ends with a dot is announced only when the byte after the dot is known, that is with the next event or the
  end. So the sound that comes with it is still played under the expression before: of an event `[happy]Hi.` and an
  event `[sad]No.`, the first sounds neutral and the second happy (`ReplyPlayed.DotsLag`; `ReplyPlayed.FacesLag` for
  any such sentences). The repository's own gateway sends replies of this kind (tools/echo-gateway.py:34-37). Every
  sample gets the expression its marker asks for if and only if each event with samples, taken with the text before
  it, finishes a sentence behind the last marker or finds that expression in force already (`ReplyPlayed.AsWanted`).
- The branches "envelope too large" and the canned last-resort answer of the router cannot be reached, nor can
  the give-up branch of the playback loop, nor "the text did not fit" for a text of up to 480 bytes.

## Model

| member | source | states |
|---|---|---|
| `JsonChecked.JsonFindObjectChecked` | src/core/stackchan_domain/src/json_scan.cpp:535-618 | the walk returns exactly the verdict and the extent that the grammar gives |
| `JsonChecked.StrictDecides` | src/core/stackchan_domain/src/json_scan.cpp:129-429 | a text is not refused if and only if it is one RFC 8259 object with literal names, at most 16 levels below the top, no raw name repeated at any level, and the sought key absent or object-valued; its reading is unique |
| `JsonChecked.AcceptedWhen` | src/core/stackchan_domain/src/json_scan.cpp:584-607 | found, missing and invalid each mean the right thing, and the span is the text of the member |
| `JsonChecked.SkipCheckedValue` | src/core/stackchan_domain/src/json_scan.cpp:344-376 | succeeds exactly on a value that the grammar admits at this depth, and stops right behind it; terminates by a measure on duplicate checking, remaining bytes and rank |
| `JsonChecked.SkipCheckedObject` | src/core/stackchan_domain/src/json_scan.cpp:247-301 | succeeds exactly on an admitted object, duplicates refused when asked for |
| `JsonChecked.SkipCheckedArray` | src/core/stackchan_domain/src/json_scan.cpp:304-341 | succeeds exactly on an admitted array |
| `JsonChecked.SkipCheckedString` | src/core/stackchan_domain/src/json_scan.cpp:129-170 | succeeds exactly on a closed string with legal escapes and no control byte |
| `JsonChecked.SkipCheckedNumber` | src/core/stackchan_domain/src/json_scan.cpp:179-224 | succeeds exactly on a number of section 6 of RFC 8259 |
| `JsonChecked.CheckedKeyAppearedBefore` | src/core/stackchan_domain/src/json_scan.cpp:382-429 | on a validated prefix the re-walk returns true exactly when the name occurred earlier, and it terminates although it restarts at the object |
| `JsonLenient.FindMember` | src/core/stackchan_domain/src/json_scan.cpp:459-504 | the cursor loop returns what the first-match specification returns, on every text |
| `JsonLenient.SkipContainer` | src/core/stackchan_domain/src/json_scan.cpp:45-71 | skips to the bracket at which the depth returns to zero, strings not counted |
| `JsonLenient.LenientAgrees` | src/core/stackchan_domain/src/json_scan.cpp:433-504 | whenever the strict walk does not refuse, the scanner finds a name exactly when it is a top-level raw name, at the same extent and with the same kind |
| `JsonLenient.DocumentFound` | src/core/stackchan_domain/src/json_scan.cpp:433-504 | on every well-formed document the scanner finds exactly the first member of a name |
| `JsonRead.JsonUnescape` | src/core/stackchan_domain/src/json_scan.cpp:660-713 | succeeds exactly when every escape is a short one and the text fits; writes that text, and nothing outside the window |
| `JsonRead.JsonFindInteger` | src/core/stackchan_domain/src/json_scan.cpp:620-648 | the value of an optional sign and digits; fractions and exponents refused; digits that overflow 64 bits read as whatever the overflow gives |
| `JsonRead.JsonFindRawString` | src/core/stackchan_domain/src/json_scan.cpp:508-517 | the bytes between the quotes of the first member of that name, if it is a string |
| `JsonMeaning.DocumentReads` | src/core/stackchan_domain/src/json_scan.cpp:508-658 | in a well-formed document each typed reader sees the first member of the name, and only if it is of its type |
| `JsonMeaning.IntegerExactly` | src/core/stackchan_domain/src/json_scan.cpp:620-648 | a number is read as an integer if and only if it has neither fraction nor exponent, and then with its sign and value |
| `JsonMeaning.UnescapeExactly` | src/core/stackchan_domain/src/json_scan.cpp:660-713 | a raw string reads as a text if and only if it spells it byte by byte, with the eight short escapes alone |
| `JsonWriter.JsonWriter.WriteInteger` | src/core/stackchan_domain/src/json_writer.cpp:147-159 | any 64-bit integer comes out in decimal, the most negative one included |
| `JsonWriter.JsonWriter.WriteText` | src/core/stackchan_domain/src/json_writer.cpp:28-70 | the escaped form is appended, or the page is marked overflowed |
| `JsonWriter.Faithful` | src/core/stackchan_domain/src/json_writer.cpp:13-26 | for any sequence of calls and any capacity, a valid page is the whole output, an invalid one is known, and `required` is the size of the whole output |
| `JsonBrackets.ValidExactly` | src/core/stackchan_domain/src/json_writer.cpp:78-108 | for any calls in any order: the page is valid if and only if the brackets match by kind, at most twelve deep, and everything fits |
| `JsonMeaning.EscapeSpells` | src/core/stackchan_domain/src/json_writer.cpp:28-68 | a byte is printed by its short escape where it must be, any other control byte by the four digits of its code, and all others as they are |
| `JsonRoundTrip.PrintedIsAccepted` | src/core/stackchan_domain/src/json_writer.cpp:78-171 | any tree of at most twelve levels with plain names comes out exactly when it fits and parses to the printed tree; with distinct names the strict walk admits it |
| `JsonRoundTrip.ReadsBack` | src/core/stackchan_domain/src/json_scan.cpp:508-658 | every member of a printed object reads back with its type and value, and absent names are not found |
| `JsonRoundTrip.UnescapeEscape` | src/core/stackchan_domain/src/json_scan.cpp:660-713 | unescaping the printed form gives the original, or fails exactly when it held a control byte without a short escape |
| `JsonRoundTrip.IntegerReadsBack` | src/core/stackchan_domain/src/json_scan.cpp:620-648 | every printed integer of magnitude up to 2^63-1 reads back equal; beyond that, the most negative one included, it overflows |
| `Base64.Base64Decode` | src/core/stackchan_domain/src/base64.cpp:48-102 | decodes into the buffer exactly when the text decodes and fits; on every run, failing ones included, nothing beyond the decoded size is written |
| `Base64.DecodeEncode` | src/core/stackchan_domain/src/base64.cpp:48-102 | decoding inverts the encoder of RFC 4648 for every byte string |
| `Base64.AcceptsExactly` | src/core/stackchan_domain/src/base64.cpp:31-102 | accepted texts are exactly the correctly padded alphabet texts, and their decoded size is the announced one |
| `Base64.EncodeDecode` | src/core/stackchan_domain/src/base64.cpp:74-99 | encoding after decoding is the identity if and only if the bits cut off by padding are zero |
| `Sse.SseReader.Feed` | src/core/stackchan_domain/src/sse.cpp:28-68 | the buffers and the queue become what the byte-by-byte machine makes of the block, after rewinding a drained queue |
| `Sse.SseReader.NextEvent` | src/core/stackchan_domain/src/sse.cpp:149-160 | events come out in order and unchanged, from length-prefixed records |
| `Sse.SseReader.EndOfStream` | src/core/stackchan_domain/src/sse.cpp:162-171 | the last line and the last event are taken as if they had been terminated |
| `SseSpec.RunAppend` | src/core/stackchan_domain/src/sse.cpp:36-67 | no cut of the stream changes what is assembled |
| `SseSpec.ReadsTheStandard` | src/core/stackchan_domain/src/sse.cpp:70-133 | the items of any stream are those that the WHATWG algorithm interprets from its lines, an oversized one marked as lost; the end of the stream acts like a final blank line |
| `SseStandard.EndDispatches` | src/core/stackchan_domain/src/sse.cpp:162-171 | the end of the stream dispatches, or loses for its size, exactly the event whose data is pending |
| `SseStandard.DataExactly` | src/core/stackchan_domain/src/sse.cpp:70-92 | only the line "data" and lines that begin with "data:" carry data; one space in front of the value is not counted |
| `SseStandard.EndAgrees` | src/core/stackchan_domain/src/sse.cpp:162-171 | any stream, read to its end, gives what the standard dispatches if and only if no data is pending at its end; where a byte order mark spoils the first event, if and only if that event is the spoilt line alone and every later one, the pending one included, repeats it |
| `SseStandard.UnendedIsDelivered` | src/core/stackchan_domain/src/sse.cpp:162-171 | a data line that nothing ends is delivered, where the standard discards it |
| `SseStandard.MarkAgrees` | src/core/stackchan_domain/src/sse.cpp:70-100 | the items of a stream are the standard's if and only if no byte order mark spoils a complete first line with data, unless no blank line ends its event or the rest of that event is oversized by itself |
| `SseStandard.MarkHidesEvent` | src/core/stackchan_domain/src/sse.cpp:70-100 | a framed event behind a byte order mark is dispatched by the standard and never seen by the reader |
| `SseFrames.OneLineLimit` | src/core/stackchan_domain/src/sse.cpp:59-66 | an event framed on one line is delivered if and only if its data is at most 8186 bytes, and the reader is then ready for the next |
| `SseFrames.FramesDelivered` | src/core/stackchan_domain/src/sse.cpp:28-147 | a stream of frames delivers their data in order and leaves nothing behind |
| `SseSpec.NoLossForRoom` | src/core/stackchan_domain/src/sse.cpp:135-146 | a drained queue fed at most 8190 bytes, and the end of the stream after it, lose nothing but oversized events |
| `SpeechSpec.SegmentsOfWhole` | src/core/stackchan_domain/src/speech.cpp:47-150 | the machine, which cannot look ahead, emits the segments of a reader that recognises markers in the whole text |
| `SpeechSpec.RunAppend` | src/core/stackchan_domain/src/speech.cpp:47-56 | no cut of the text changes the segments |
| `SpeechMeaning.EmitsSentences` | src/core/stackchan_domain/src/speech.cpp:114-229 | the segments are the sentences of a look-ahead definition: what stands between is dropped, the sentence reaches to its end or to the cut, under the expression of the last marker |
| `SpeechMeaning.EmitsFinished` | src/core/stackchan_domain/src/speech.cpp:47-150 | before any flush the segments are exactly the sentences that the text so far finishes |
| `SpeechMeaning.AnySplit` | src/core/stackchan_domain/src/speech.cpp:47-56 | any two pieces of a text, fed and flushed, give the sentences of the whole |
| `SpeechMeaning.SegmentShape` | src/core/stackchan_domain/src/speech.cpp:114-150 | every segment has 1 to the limit bytes, begins with no blank, holds no newline and no sentence end before its last byte |
| `SpeechEnds.OneByteEnds` | src/core/stackchan_domain/src/speech.cpp:114-150 | behind a word, of all bytes exactly '!', '?', CR and LF finish a sentence, and the newline is dropped |
| `SpeechEnds.DotEnds` | src/core/stackchan_domain/src/speech.cpp:58-69 | behind a word and a dot, exactly white space finishes the sentence, or a byte that ends one by itself |
| `SpeechEnds.ThreeBytesEnd` | src/core/stackchan_domain/src/speech.cpp:9-18 | behind a word, of all three bytes beyond ASCII exactly three characters finish a sentence: the ideographic full stop and the two full-width marks |
| `SpeechEnds.MarkersExactly` | src/core/stackchan_domain/src/speech.cpp:75-101 | small letters in brackets choose an expression if and only if they are one of the six names; others stay text |
| `SpeechMeaning.NothingLost` | src/core/stackchan_domain/src/speech.cpp:192-209 | the bytes outside the markers are the texts of the segments, whole and in order, with nothing but blanks and newlines between them |
| `SpeechMeaning.TokensSpell` | src/core/stackchan_domain/src/speech.cpp:75-101 | recognised markers and speech bytes together are the text |
| `SpeechMeaning.CutBounds` | src/core/stackchan_domain/src/speech.cpp:152-190 | for arbitrary bytes a full buffer is never kept whole and at most three bytes are carried over |
| `Utf8.SegmentsWellFormed` | src/core/stackchan_domain/src/speech.cpp:159-190 | well-formed UTF-8 (section 4 of RFC 3629) is cut into well-formed segments, whatever markers it holds |
| `SpeechQueue.RoomExactly` | src/core/stackchan_domain/src/speech.cpp:192-209 | a drained segmenter loses a sentence of a feed if and only if the sentences it finishes, each with two bytes more, are over 512 bytes; those that are kept keep their order, and none is lost uncounted |
| `SpeechQueue.LosesExactly` | src/core/stackchan_domain/src/speech.cpp:192-209 | the same from the text alone: by the look-ahead sentences that the text finishes with the feed and had not finished before it |
| `SpeechQueue.RoomForFlush` | src/core/stackchan_domain/src/speech.cpp:219-229 | what a flush finishes always fits a drained queue |
| `SpeechQueue.RoomForFeed` | src/core/stackchan_domain/src/speech.cpp:192-209 | a bound from the size alone: nothing is lost of a feed of n bytes when limit + 25 + 3n is at most 512 |
| `SpeechQueue.BangsAreDropped` | src/core/stackchan_domain/src/speech.cpp:198-203 | a feed of one-byte sentences loses some if and only if there are at least 171 |
| `Speech.SpeechSegmenter.Feed` | src/core/stackchan_domain/src/speech.cpp:47-56 | the fixed buffers do what the machine says, and no index leaves them |
| `Speech.SpeechSegmenter.FlushAll` | src/core/stackchan_domain/src/speech.cpp:219-229 | an unclosed marker becomes text and what is left a sentence |
| `Speech.SpeechSegmenter.NextSegment` | src/core/stackchan_domain/src/speech.cpp:231-241 | sentences come out in order, text and expression unchanged |
| `Speech.SpeechSegmenter.EmitCut` | src/core/stackchan_domain/src/speech.cpp:159-189 | a full buffer emits up to its last whole character and keeps the rest |
| `Speech.SpeechSegmenter.ConsumeIntoMarker` | src/core/stackchan_domain/src/speech.cpp:75-101 | a byte inside a marker extends it, closes it, or gives it up as text |
| `Protocol.NamesReadBack` | src/core/stackchan_domain/src/protocol.cpp:16-29 | names of error codes and codes correspond one to one |
| `ConversationSpec.AnyCuts` | src/core/stackchan_app/src/conversation.cpp:23-120 | however a reply is cut into blocks of at most 8190 bytes, the calls to the listener, their order, the outcome and the code are those of the whole stream, with and without its close |
| `EventMeaning.EnvelopeIs` | src/core/stackchan_app/src/conversation.cpp:41-61 | a document is taken for an event if and only if its version is 1, its kind is "event", and it has a name and an object for a payload |
| `EventMeaning.SoundMeans` | src/core/stackchan_app/src/conversation.cpp:122-189 | for any rate, number, words, samples and last flag, present or not: which audio events are dropped, which fail the turn, and what the others say and then play |
| `EventMeaning.RecognizedMeans` | src/core/stackchan_app/src/conversation.cpp:68-83 | recognised text is passed on as it stands, as settled unless it says it is not; without a text of at most 512 bytes the event is dropped |
| `EventMeaning.EndedMeans` | src/core/stackchan_app/src/conversation.cpp:85-103 | completed or cancelled if and only if the reason says exactly so, failed for any other reason; without a reason the event is dropped |
| `EventMeaning.RaisedMeans` | src/core/stackchan_app/src/conversation.cpp:105-115 | an error is kept by its name, and as an internal one without a known name |
| `EventMeaning.EndsAs` | src/core/stackchan_app/src/conversation.cpp:34-120 | over any sequence of events: the end is told once, last, with the outcome of the reason; a failure has the code of the error raised last, or the internal one; the texts recognised were passed on in order |
| `EventMeaning.ClosesAs` | src/core/stackchan_app/src/conversation.cpp:198-215 | a reply that closes without a reason has failed, with the code of the error raised last, or the internal one |
| `ReplyRoundTrip.HeardAsSent` | src/core/stackchan_app/src/conversation.cpp:23-229 | a reply of any chunks that the event buffers hold, printed, framed and encoded by the gateway, is heard as sent: all samples in order and no others, no event dropped, one completed end as the last call; every sentence is heard in its place or counted, and all are heard if and only if no chunk finishes more than the speech queue holds |
| `ReplyRoundTrip.HeardHoweverCut` | src/platform/stackchan_conversation/src/gateway_client.cpp:265-297 | and so it is however the network cuts the stream into blocks of at most 8190 bytes |
| `ReplyRoundTrip.ShoutsAreLost` | src/core/stackchan_app/src/conversation.cpp:140-153 | one event with 171 exclamation marks loses a sentence |
| `ReplyRoundTrip.AudioInterpreted` | src/core/stackchan_app/src/conversation.cpp:122-189 | a printed audio event whose number reads as the next one makes the turn say its words and play its samples |
| `ReplyRoundTrip.OverflowIsAccepted` | src/core/stackchan_app/src/conversation.cpp:131-138 | an event numbered 2^64 is accepted as event 0 if that is what the overflow gives, and fails the turn if it reads as nothing |
| `ReplyPlayed.GivenAsVoiced` | src/platform/stackchan_conversation/src/task.cpp:93-101 | when no chunk outruns the speech queue, the player gets every sample with the expression of the last sentence that the words up to its chunk have finished, which need not be the sentence it belongs to |
| `ReplyPlayed.AsWanted` | src/core/stackchan_app/src/conversation.cpp:140-153 | that is the expression that the last marker before the sample asks for if and only if, for every chunk with samples, the words behind that marker finish a sentence (with the last chunk any words do), or the last finished sentence has that expression already |
| `ReplyPlayed.FacesLag` | src/core/stackchan_domain/src/speech.cpp:142-150 | of any two sentences that their own chunks do not finish, the sound of the first is played as neutral and the sound of the second under the marker of the first |
| `ReplyPlayed.DotsLag` | src/core/stackchan_domain/src/speech.cpp:142-145 | so it is with `[happy]Hi.` and `[sad]No.`, whatever follows: the face is not the one the marker asks for |
| `SpeechMarks.LastVoiceIs` | src/core/stackchan_domain/src/speech.cpp:103-120 | the last finished sentence has the expression of the last marker if a sentence is finished behind it; otherwise it is the last sentence finished up to the marker |
| `ReplyPlayed.PlayedAsSent` | src/platform/stackchan_conversation/src/task.cpp:93-160 | from the bytes of a reply to any sink: the player gets exactly the samples that were sent, in order; each is written under the expression announced last before it, or discarded and counted, and nothing is left behind; all is heard if and only if the sink takes every instruction whole; when no chunk outruns the speech queue, all get what their markers ask for if and only if the reply is timely in the sense of `AsWanted` |
| `ConversationSpec.EndsOnce` | src/core/stackchan_app/src/conversation.cpp:198-229 | for every stream the end is reported exactly once, as the last call, with the outcome and code the turn keeps |
| `ConversationSpec.NextNumberOnly` | src/core/stackchan_app/src/conversation.cpp:131-138 | a playable audio event is accepted exactly when the next number is read from it, and that is the number it states unless it overflows; any other number, or none, fails the turn on the spot |
| `ConversationSpec.InSequence` | src/core/stackchan_app/src/conversation.cpp:122-138 | in every run, ended or not, the numbers read from the playable audio events are exactly 0, 1, 2, … up to the one before the next; only the last may differ, and then it has failed the turn |
| `ConversationSpec.InterpretAllHonest` | src/core/stackchan_app/src/conversation.cpp:222-229 | outcome and code change only together with the one report of the end |
| `Conversation.ConversationTurn.Feed` | src/core/stackchan_app/src/conversation.cpp:23-32 | reader, segmenter, counters and calls become what the block function says; after the end nothing changes |
| `Conversation.ConversationTurn.TakeEvent` | src/core/stackchan_app/src/conversation.cpp:34-120 | one event has the effect of its interpretation, in the same order of checks |
| `Conversation.ConversationTurn.TakeAudio` | src/core/stackchan_app/src/conversation.cpp:122-138 | the rate is checked before the number; a wrong rate is dropped, a wrong number fails the turn, the next one is consumed |
| `Conversation.ConversationTurn.SpeakNumbered` | src/core/stackchan_app/src/conversation.cpp:140-153 | the words are said, and their sentences announced, before any sound; unreadable words drop the event |
| `Conversation.ConversationTurn.PlaySamples` | src/core/stackchan_app/src/conversation.cpp:155-189 | samples are decoded whole or the turn fails; the last event flushes the speech first |
| `Conversation.ConversationTurn.EndInput` | src/core/stackchan_app/src/conversation.cpp:198-215 | what the closed stream still held is interpreted, then an unfinished turn fails with the named or the internal code |
| `Conversation.ConversationTurn.Abort` | src/core/stackchan_app/src/conversation.cpp:217-229 | ends a running turn with the given code and leaves an ended one alone |
| `Converse.Exchange` | src/platform/stackchan_conversation/src/gateway_client.cpp:103-312 | for every behaviour of the HTTP client, the clock and the token: the listener is told exactly what the bytes heard and the cause of the end make of it, and when the exchange returns the end has been reported exactly once and last |
| `Converse.ReadReply` | src/platform/stackchan_conversation/src/gateway_client.cpp:263-305 | the reply is interpreted up to its end, its close, or an abort, cancelled before it is timed out, with the code of the first poll that does not leave the exchange under way; success means a close or a completed turn |
| `Converse.EndedOnce` | src/platform/stackchan_conversation/src/gateway_client.cpp:268-311 | each of the three ways to end reports the end once |
| `Converse.FirstDecides` | src/platform/stackchan_conversation/src/gateway_client.cpp:265-305 | the first poll that is cancelled, too late, broken or the close, or whose bytes end the turn, decides what was heard and how the exchange ended |
| `Converse.CodesNameCauses` | src/platform/stackchan_conversation/src/gateway_client.cpp:103-312 | every abort code has its cause: invalid argument an overlong text, internal a missing client, cancelled a cancellation, timeout a clock past its deadline, unavailable a connection, a send, a status or a read that failed |
| `ConverseMeaning.ReadExactly` | src/platform/stackchan_conversation/src/gateway_client.cpp:103-261 | a reply is read if and only if there is a url and something to send, a client, a body that fits, a gateway, no failed write, no cancellation, and the first answer for headers is good with status 200, before the deadline |
| `ConverseMeaning.FailsExactly` | src/platform/stackchan_conversation/src/gateway_client.cpp:103-261 | the code of each failure before the reply, if and only if its step is the first to fail |
| `ConverseMeaning.OnlyRepliesAreHeard` | src/platform/stackchan_conversation/src/gateway_client.cpp:254-261 | nothing but the body of an answer with status 200 reaches the turn |
| `ConverseMeaning.FailureIsTold` | src/platform/stackchan_conversation/src/gateway_client.cpp:103-261 | a failure before the reply tells the listener one thing: cancelled or failed, with its code |
| `ConverseMeaning.BreakIsTold` | src/platform/stackchan_conversation/src/gateway_client.cpp:268-305 | and so does a break while the reply is read, after what was heard of it |
| `Converse.TextBodyFits` | src/platform/stackchan_conversation/src/gateway_client.cpp:156-171 | a text of up to 480 bytes always fits the request buffer and reads back |
| `ConversationStart.ScanParams.ReadString` | src/core/stackchan_app/src/scan_params.cpp:7-23 | a string is handed out exactly when it can be unescaped in the space left, and every string handed out before still reads the same |
| `ConversationStart.ScanParams.Empty` | src/core/stackchan_app/src/scan_params.cpp:33-61 | whether nothing stands between the opening brace and the closing one |
| `ConversationStart.ReadConversationStartInput` | src/core/stackchan_app/include/stackchan/app/conversation_start.hpp:26-37 | the input is what the payload's text member says, if it fits the room that is left |
| `ConversationStart.NeverRecordsByMistake` | src/core/stackchan_app/include/stackchan/app/conversation_start.hpp:26-37 | for every body: listening if and only if the payload is absent or has no members; otherwise exactly the unescaped NUL-free text of 1 to 480 bytes that fits the room, or refused |
| `Envelope.WriteResult` | src/core/stackchan_app/src/envelope.cpp:18-26 | prints the result envelope around the payload value |
| `Envelope.WriteError` | src/core/stackchan_app/src/envelope.cpp:28-44 | prints the error envelope, message optional, retryable from the code |
| `Envelope.ResultSize` | src/core/stackchan_app/src/envelope.cpp:18-26 | an envelope costs 52 bytes around its id and its payload |
| `RequestRouter.Router.Route` | src/core/stackchan_app/src/request_router.cpp:28-68 | the answer is the envelope of the specified response, if handlers that succeed write one value or nothing; checks in the order of the source |
| `RequestRouter.Router.Dispatch` | src/core/stackchan_app/src/request_router.cpp:70-102 | the payload reaches the handler only after the strict walk; the "envelope too large" branch is dead |
| `RequestRouter.Router.SendError` | src/core/stackchan_app/src/request_router.cpp:104-114 | an error envelope always fits, so the last resort is dead |
| `RouterAnswers.RefusedUnauthorised` | src/core/stackchan_app/src/request_router.cpp:28-35 | without the token every request reads back as the same bad request, whatever its body holds and the handlers would do |
| `RouterAnswers.AnsweredExactly` | src/core/stackchan_app/src/request_router.cpp:28-102 | a result reads back if and only if the caller is authorised, the body is a request by its syntax tree, and the handler, given the name and the payload's text, succeeds with a valid page; in every other case the code that reads back, the handler's own included, with the id of the request |
| `RouterAnswers.RefusalSays` | src/core/stackchan_app/src/request_router.cpp:37-83 | a bad request is told what was wrong with it, and a document gets its id back |
| `RequestRouter.ResponsesReadBack` | src/core/stackchan_app/src/request_router.cpp:28-114 | every response is one RFC 8259 object that reads back: version, kind, id, ok, and the payload or the error with its retryability and its message, which is absent when empty |
| `RequestRouter.IdComesBack` | src/core/stackchan_app/src/request_router.cpp:45-57 | a dispatched request gets its own id back, whatever the handler did |
| `RequestRouter.DispatchedId` | src/core/stackchan_app/src/request_router.cpp:74-79 | once the strict walk has passed the body, the id needs no four-digit escape |
| `RequestRouter.PrintingIsOneValue` | src/core/stackchan_app/src/request_router.cpp:84-94 | a handler that prints a tree keeps the promise that routing relies on |
| `Playback.PlaybackStager.Begin` | src/core/stackchan_app/src/playback_stager.cpp:7-21 | with sound staged the new expression waits and the staged count is due |
| `Playback.PlaybackStager.AcceptSamples` | src/core/stackchan_app/src/playback_stager.cpp:23-42 | takes what fits, in order, and nothing while a boundary waits |
| `Playback.PlaybackStager.Flush` | src/core/stackchan_app/src/playback_stager.cpp:56-66 | frees the stage and promotes the waiting expression |
| `Playback.StillSounding` | src/core/stackchan_app/src/playback_stager.cpp:77-85 | on a clock that may wrap, what remains is the sink depth less the time passed |
| `Playback.PairedAlways` | src/platform/stackchan_conversation/src/task.cpp:93-160 | over every run and every sink: samples are written in arrival order, each under the expression of the sentence announced last before it arrived; received equals written plus discarded plus staged |
| `Playback.NothingLeft` | src/platform/stackchan_conversation/src/task.cpp:148-160 | when the turn has finished, everything that arrived was written or discarded |
| `PlaybackHeard.LandsExactly` | src/platform/stackchan_conversation/src/task.cpp:209-227 | one instruction writes the sum of the longest row of answers that take something, and no more than is left |
| `PlaybackHeard.HeardExactly` | src/platform/stackchan_conversation/src/task.cpp:93-227 | over every run and sink: of each instruction in turn exactly as many samples are heard as its writes take; the instructions follow from the callbacks alone |
| `PlaybackHeard.NothingLostIff` | src/platform/stackchan_conversation/src/task.cpp:185-227 | nothing is lost, and everything heard as given, if and only if nothing is dropped at the end, no instruction is refused, and the answers of each add up to its samples |
| `PlaybackHeard.LastSentence` | src/platform/stackchan_conversation/src/task.cpp:148-154 | a completed turn plays what is staged last, any other end drops it |
| `Playback.OfferSettles` | src/platform/stackchan_conversation/src/task.cpp:126-145 | the offering loop ends with everything staged or played, and never gives up |
| `Playback.PlayerMachine.AudioArrives` | src/platform/stackchan_conversation/src/task.cpp:104-146 | the loop does what the specification says; its give-up branch is dead |
| `Playback.PlayerMachine.MeasurePeak` | src/platform/stackchan_conversation/src/task.cpp:112-120 | the peak is at least every magnitude and is one of them or the old peak |
| `Playback.PlayerMachine.WriteAll` | src/platform/stackchan_conversation/src/task.cpp:209-227 | how much is written before a stall, a cancellation or the end |
| `Playback.PlayerMachine.SpeakStaged` | src/platform/stackchan_conversation/src/task.cpp:185-206 | the staged samples are written under their expression and the stage is freed, also when playback cannot start |
| `Handover.EveryRunIsSafe` | src/platform/stackchan_conversation/src/task.cpp:296-404 | in every interleaving: at most one notification, no write of the shared text while the task may read it, one turn per accepted start with its text, one counter per turn |
| `Handover.StepSound` | src/platform/stackchan_conversation/src/task.cpp:461-480 | every step of a caller or the task keeps exactly one party at work |
| `Handover.ExactTexts` | src/platform/stackchan_conversation/src/task.cpp:307-308 | a text without NUL is spoken exactly |
| `Handover.AlwaysComesBack` | src/platform/stackchan_conversation/src/task.cpp:385-396 | once a start is accepted some step is always possible and every step but announcing speech brings idle closer |
| `HandoverServed.StartsExactly` | src/platform/stackchan_conversation/src/task.cpp:461-480 | a start is accepted if and only if the phase is idle and the text has at most 480 bytes; then the device listens, otherwise nothing changes |
| `HandoverServed.StartIsServed` | src/platform/stackchan_conversation/src/task.cpp:296-404 | whatever happens after an accepted start, the device can come back to idle, and by then the start has had its own turn with its text |
| `HandoverServed.CountedAsEnded` | src/platform/stackchan_conversation/src/task.cpp:348-367 | in every run each counter is the number of turns that ended its way; one given up before it began counts as cancelled |
| `HandoverServed.ShowsExactly` | src/platform/stackchan_conversation/src/task.cpp:185-204 | in every run the device shows that it speaks exactly while speech has been announced in the turn under way |
| `HandoverServed.WordsAreUsedOnce` | src/platform/stackchan_conversation/src/task.cpp:391-396 | when the device is idle the words of the last start are gone |
| `Cancellation.RunIsAtomic` | src/core/stackchan_runtime/src/cancellation.cpp:20-59 | under any interleaving and spurious failure the reason is what the calls make of it one after the other; a cancellation is a maximum by gravity |
| `Cancellation.OnlyClearReleases` | src/core/stackchan_runtime/src/cancellation.cpp:38-59 | an emergency stop leaves only through a clear_emergency that returned |
| `Cancellation.ShutdownSurvives` | src/core/stackchan_runtime/src/cancellation.cpp:38-51 | in any interleaving another reason takes the place of a shutdown if and only if an emergency stop has returned |
| `Cancellation.ShutdownForgotten` | src/core/stackchan_runtime/src/cancellation.cpp:53-59 | after any calls a shutdown has given way to a lighter reason or none if and only if an emergency stop came and later a clear_emergency |
| `Cancellation.RunForgets` | src/core/stackchan_runtime/src/cancellation.cpp:20-59 | the same in any interleaving with any spurious failures, in the order in which calls return |
| `Cancellation.GravestWins` | src/core/stackchan_runtime/src/cancellation.cpp:25-35 | without resets the reason is the gravest that was given |
| `Cancellation.NothingOutlivesReset` | src/core/stackchan_runtime/src/cancellation.cpp:38-51 | while nobody stops the device for good, the reason is the gravest given since the last reset, and none if none was |
| `Cancellation.ResetClears` | src/core/stackchan_runtime/src/cancellation.cpp:38-51 | after any calls a reset clears everything but an emergency stop and a shutdown |
| `Cancellation.RunResets` | src/core/stackchan_runtime/src/cancellation.cpp:20-59 | no cancellation outlives the reset that returns after it, in any interleaving with any spurious failures |
| `Cancellation.RetryMeansChange` | src/core/stackchan_runtime/src/cancellation.cpp:28-35 | a retry without a spurious failure means that somebody changed the reason |
| `NetworkPolicy.WaitAfterFailures` | src/core/stackchan_domain/src/network_policy.cpp:58-80 | after every history the interval is min(first·2^(k-1), max) for k failures in a row, without 32-bit overflow, and the count saturates at 255 |
| `NetworkPolicy.WaitBounds` | src/core/stackchan_domain/src/network_policy.cpp:104-115 | the interval stays between first and max, and the access point opens exactly without credentials or after enough failures |
| `NetworkPolicy.OpenAfter` | src/core/stackchan_domain/src/network_policy.cpp:104-115 | after every history the access point is open exactly without credentials, or with no connection standing and enough failures in a row |
| `NetworkPolicy.OfferedAfter` | src/core/stackchan_domain/src/network_policy.cpp:82-102 | after every history an attempt is offered exactly when there are credentials, nothing is in flight or connected, and either nothing has failed since or no guest is attached and the interval has passed since the last failure; the wait is what is left of it |
| `NetworkPolicy.ElapsedIs` | src/core/stackchan_domain/src/network_policy.cpp:6-8 | on the wrapping 32-bit clock any time short of a whole turn is measured right |
| `NetworkPolicy.OneAttemptPerEntry` | src/core/stackchan_domain/src/network_policy.cpp:87-92 | while a guest stays attached, attempts never exceed entries of credentials plus the one still due |
| `NetworkPolicy.NetworkPolicyMachine.OnFailed` | src/core/stackchan_domain/src/network_policy.cpp:58-80 | the fields change as the event function says |

## Left out

- Hardware, drivers, HTTP internals, storage and drawing: a sink, a clock, a token and an HTTP peer are oracles that may answer anything.
- Comparison of the access token, the WAV header and the identity headers: inputs of the router and of the exchange.
- Memory order: atomics are sequentially consistent steps.
- Views into buffers: a returned event or sentence is a value; that it stays valid until the next feed is the statement that reading does not change the queue's bytes.
- Counters (`dropped_`, the turn counters, the next sequence number) do not wrap around.
- JsonRead.JsonFindInteger: an overflow, which the language leaves undefined, gives any value or a failed read, but the same one for the same digits; that it could do anything else is not modelled.
- JsonLenient.FindMember: on a text that is no document the loop does what its specification says, but what a member of such a text is has no other meaning here.
- Speech.SpeechSegmenter.EmitCut: carries the rest over as a value instead of an eight-byte scratch array; it is proved to be at most three bytes.
- Converse.Exchange: says nothing while the peer's answers have run out, since a peer that never answers is only bounded by the clock it is given.
- Converse.SendRequest: the bytes of recorded audio that are sent are not modelled, only how sending can end.
- Playback.PlayerMachine.AudioArrives: requires a stage and a sink, which starting the task guarantees (task.cpp:412-436); samples refused for want of either are not modelled.
- Handover.EveryRunIsSafe: what a turn does between reading its text and being counted is one outcome; the interpretation is in the conversation modules, and cancellation of a turn in the cancellation module.
- The recording loop (`record`, task.cpp:244-294) and winding down: bounded waits on the hardware; a turn that is cut off there is the abort step of the hand-over.
- RequestRouter.Router.Route: the command table itself and the handlers are an oracle for a name and a payload; the names, choices and capabilities of commands are not modelled.
- `write_event`, `json_find_bool` beyond its use, button and mailbox helpers, device identity and health: they would only add easy members.
