# Wyoming narrator: a verified model

The repository is `narrator.device` for classic Amiga systems: an exec device whose own task holds a
TCP connection to a Wyoming text-to-speech server, sends it the text of every `CMD_WRITE` and plays the
samples that come back through AHI. This project models its engine, its device dispatch, its host-side
client, the mock server and the WAV checker of its tests, and `Translate()` of its translator library, and
proves what they promise, over every input, every run and every interleaving.

`dafny verify dfyconfig.toml` checks everything.

## What is modelled

- **Text to wire** (`Utf8`, `Marks`, `Segments`, `Json`, `JsonObjects`, `Request`, `RequestMeaning`, `Pipeline`).
  UTF-8 validation against the grammar of section 4 of RFC 3629 and against the scalar values it encodes; the
  splitting of a text at punctuation against a greedy specification and, byte by byte, against the marks it names;
  escaping and framing in a buffer of the size the engine allocates; the far side's reading as JSON objects by the
  rules of RFC 8259. `Pipeline.TextSurvives` puts them together.
- **Wire to samples** (`Wire`, `Header`, `Items`, `Events`, `Response`, `Readers`, `Messages`, `Decoding`,
  `Truncation`, `EventObjects`, `MockServer`). A socket is an adversary: `send` takes any number of bytes or is refused,
  `recv` hands out any non-empty piece, and the link may end after any number of bytes, by end of file or by an
  error. The 16 KB cursor buffer behaves like a plain byte stream; the response loop undoes any server's framing,
  of which the mock server's encoder is one; and of responses cut at any byte it is known exactly when they pass.
- **The held connection** (`Pairing`, `Exchanges`, `Leftovers`, `Session`, `SessionRuns`, `Lifetimes`). Requests
  and responses stay paired over any number of utterances, on any number of connections to any number of servers; a
  retry never plays anything twice. `Lifetimes.Live` follows the utterances of a session, from its creation to its
  end, from the server's words to the loudspeaker and to the capture file; `Leftovers` says what a failed
  allocation does to the utterances behind it.
- **Playback and capture** (`Playback`, `Sounds`, `Player`, `PlayerRuns`, `Wav`). The content of the AHI buffer at
  every moment, what is heard as a function of the audio that arrives, over whole runs, and the captured WAV file
  read back by the chunk walker.
- **The device task** (`DeviceTask`, `DeviceSafety`, `DeviceHistory`, `DeviceSteps`, `DeviceShutdown`,
  `DeviceRules`, `ExecList`, `DeviceUnit`, `Counting`). A transition system of owner, task and any number of
  callers with one step per exec call; memory safety, exactly-once completion, order of service and termination
  over every interleaving; and the linked list, dispatch, abort and flush as imperative code over nodes.
- **The host client** (`HostScan`, `HostEvents`, `HostDecoding`, `HostEscape`, `HostRequest`, `HostVoice`) and
  **Translate** (`Translator`).

## Assumptions that are stated, not hidden

- `DeviceTask.Rules` holds the two the device rests on: libnix runs the open and close hooks under `Forbid()`
  until they `Wait()`, and the owner closes the device only when no other task is inside it.
  `DeviceRules.SafeIffAssumptions` shows that the device is memory safe exactly under both.
- `Pairing.Polite` is what the pairing of requests and responses asks of the server behind an endpoint: one
  response per request, of any messages framed as they announce themselves, with its only audio-stop at the
  end. `MockServer.FixtureIsPolite` shows that the mock server is.
- `Playback.Unharmed`: a piece of samples that `recv` cuts at an odd place loses a byte, unless nothing follows
  it in the buffer. `Playback.CutsHarmlessIff` says exactly which cuts do no harm.
- The answers of memory, AHI, dos.library and the network are parameters: an allocation count, `Player.ahi`,
  `Tap.dos`, and `Session.Net` for gethostbyname, connect and every link's sends.
  What is promised of playback "when nothing is refused" holds whenever no answer between two moments was no,
  so in every run if all are yes; `Lifetimes.Live` is such a run.

## Where code and comments disagree

The model follows the code.

- `src/nw_engine.c:973-976` promises a cut at a word boundary as a last resort. There is none:
  `Segments.NoMarksNoCut`.
- `src/nw_engine.c:681-682` returns at end of file without terminating the line. What stood in the buffer
  before is read on; `Truncation.StaleStopCounts` turns this into an utterance reported as complete that
  never was, and `Truncation.CutPassesIff` says exactly when that happens.
- `src/nw_engine.c:1110` takes an empty header line for the end of the connection: `Response.EmptyLineIsClose`.
- `src/nw_engine.c:367-368` takes pieces of samples to be whole 16-bit words; see `Unharmed` above.
- `src/translator_library.c:65-67` documents 0 as "the whole input fit". A buffer of length 1 gets 0 with
  nothing translated: `Translator.ZeroMeansDone`.
- `src/nw_engine.c:1345-1347` drains the port for writes that stand behind the shutdown message. Under both
  assumptions none ever does; what is drained is what close found queued when it came in front of the task's first
  look at `shutting` or between an empty `GetMsg` and the next look: `DeviceHistory.FirstComeFirstServed`.
- `src/wyoming.c:132-135` inserts the speaker as it stands, "documented as an integer". The integer 007 makes the
  request unreadable, since JSON numbers have no leading zeros: `HostVoice.LeadingZeros`.
- The host's `json_escape` may end a text inside a UTF-8 character: `HostEscape.CharacterTorn`.

## Model

| member | source | states |
|---|---|---|
| Utf8.IsValidUtf8 | src/nw_engine.c:814-845 | 1 exactly for the UTF8-octets of section 4 of RFC 3629, for every length |
| Utf8.ScanChar | src/nw_engine.c:818-842 | one trip of the loop accepts exactly one UTF8-char and steps over it |
| Utf8.RangeTestsAreGrammar | src/nw_engine.c:836-841 | the numeric tests for overlongs, surrogates and the upper bound say what the grammar says byte by byte |
| Utf8.GrammarIsScalarEncodings | src/nw_engine.c:810-813 | the grammar generates exactly the encodings of sequences of Unicode scalar values |
| Utf8.CutBeforeAscii | src/nw_engine.c:985-1016 | valid text cut in front of an ASCII byte or at its end is valid on both sides |
| Segments.Split | src/nw_engine.c:979-1020 | the tables hold the segments of greedy cuts: each inner cut is the first word end whose last byte, behind quotes and brackets, is a full stop, an exclamation or a question mark, or, with enough words, a comma, semicolon or colon; no such place is passed over while room is left |
| Segments.NextWord | src/nw_engine.c:987-1011 | the next word end, and whether a segment may end there, as the design's rule and byte by byte |
| Segments.LastChar | src/nw_engine.c:996-1003 | the character in front of the trailing run of quotes and brackets |
| Segments.GreedyIsUnique | src/nw_engine.c:1012-1015 | the greedy specification determines the cuts |
| Segments.GreedyCutsAtMarks | src/nw_engine.c:1005-1016 | greedy cuts stand exactly at the marks, read off the bytes of the text |
| Segments.GreedyPartitions | src/nw_engine.c:1012-1019 | the segments are adjacent, cover the text, number between 1 and maxseg, and none of a text is empty |
| Segments.SlicesConcat | src/nw_engine.c:1012-1018 | the segments put together are the text |
| Segments.SlicesAreUtf8 | src/nw_engine.c:985-1018 | every segment of valid UTF-8 is valid UTF-8 |
| Segments.NoMarksNoCut | src/nw_engine.c:1005-1011 | a text without marks is one request, whatever the word target |
| Request.EscapeDecodes | src/nw_engine.c:1022-1040 | the string rules of RFC 8259 read the escaped text back, with every control byte but LF and CR as a space |
| Request.EscapeAtMostDoubles | src/nw_engine.c:1050-1051 | escaping at most doubles the length |
| Request.EscapeHasNoLineFeed | src/nw_engine.c:1034 | no escaped text breaks the line |
| Request.EscapeKeepsUtf8 | src/nw_engine.c:1025-1037 | escaping valid UTF-8 gives valid UTF-8 |
| Request.JsonEscapeAppend | src/nw_engine.c:1027-1040 | exactly the escaped bytes behind what was there, and the position after them |
| Request.BuildRequest | src/nw_engine.c:1044-1068 | the whole request line, inside a buffer of textlen*2 + voicelen*2 + 96 bytes |
| Request.RequestFits | src/nw_engine.c:1051 | that buffer is never too small |
| Request.RequestReadsBack | src/nw_engine.c:1056-1068 | the far side parses the line into the text and the voice |
| RequestMeaning.RequestIsObject | src/nw_engine.c:1056-1068 | every request is one JSON object of type synthesize whose data is the cleaned text and, if there is one, the voice with its cleaned name |
| Pipeline.PipelineLines | src/nw_engine.c:1096-1100 | behind any complete lines, the peer splits the pipelined bytes into exactly the requests sent |
| Pipeline.TextSurvives | src/nw_engine.c:979-1100 | end to end: one request per segment, and the texts the far side decodes concatenate to the original, cleaned |
| Pipeline.Utf8Survives | src/nw_engine.c:814-1040 | if the text is valid UTF-8, so is every request text on the wire |
| Wire.Socket.Send | src/nw_engine.c:732 | any short write or error; nothing already pending is lost |
| Wire.Socket.Recv | src/nw_engine.c:669 | any non-empty piece that fits, in order, or the way the link ends |
| Wire.WriteAll | src/nw_engine.c:727-738 | everything goes out, or -1 behind a proper prefix, exactly if the link refuses a send |
| Wire.LinkEnds | src/nw_engine.c:669 | behind its last byte a link ends the way it ends, and with nothing to carry it times out |
| Wire.ServeConnection | tests/mock_wyoming_server.py:72-92 | the requests answered are the complete lines of what was sent, however it arrives |
| Wire.JoinSplits | tests/mock_wyoming_server.py:84-90 | splitting at line feeds undoes framing by line feeds |
| Header.FindValue | src/nw_engine.c:175-192 | the value behind the first quoted occurrence of the key |
| Header.FindInteger | src/nw_engine.c:194-205 | the number found there, or the old value |
| Header.ContainsSub | src/nw_engine.c:207-217 | true exactly for substrings |
| Header.ReadIntDec | src/nw_engine.c:199-204 | the number scanner reads back every decimal rendering |
| Header.FieldReads | src/nw_engine.c:175-205 | with any blanks, tabs and colons behind a name and any sign its number is read, and null is none |
| Items.FindIntField | src/nw_engine.c:194-205 | on a flat header the number of the first field of that name is found |
| Items.FindIntMissing | src/nw_engine.c:194-205 | and nothing if there is no such field |
| Items.ContainsItems | src/nw_engine.c:207-217 | a quote-free substring of a header stands inside one name or one gap |
| Events.HeaderIsItems | tests/mock_wyoming_server.py:29-46 | both header shapes, the start and the stop line are flat headers |
| Events.FormatReads | tests/mock_wyoming_server.py:29-46 | rate, width and channels are read from exactly the headers that carry them |
| Events.BlockReads | tests/mock_wyoming_server.py:39-41 | and from the separate data block |
| Events.DataLengthReads | tests/mock_wyoming_server.py:42-45 | the length of the data block is read back |
| Events.PayloadLengthReads | tests/mock_wyoming_server.py:31-45 | the payload length is read from chunk headers and from no other |
| Events.StopReads | src/nw_engine.c:1134 | "audio-stop" is found in the stop header and in no other |
| Events.HeaderFits | src/nw_engine.c:1103 | headers and data blocks fit the engine's two buffers |
| EventObjects.HeaderIsObject | tests/mock_wyoming_server.py:29-69 | every header line and every data block is one JSON object that says the type and the numbers of its event |
| MockServer.RespondOnce | tests/mock_wyoming_server.py:49-69 | sends the encoding of audio-start, the non-empty parts of the fixture in alternating shapes, and audio-stop |
| MockServer.ReplyIs | tests/mock_wyoming_server.py:49-69 | event by event: a fifth of the fixture, half of it and the rest, the one in the middle with a block of its own, nothing for an empty part |
| MockServer.FixtureIsPolite | tests/mock_wyoming_server.py:49-92 | the mock server meets what the pairing theorem asks of a server |
| MockServer.FixtureDecodes | tests/mock_wyoming_server.py:49-69 | the engine takes exactly the fixture's samples out of an answer and leaves what follows |
| Response.WholeLine | src/nw_engine.c:676-690 | a line that fits is read whole and terminated |
| Response.CutLine | src/nw_engine.c:681-682 | a line cut by end of file is returned without a terminator |
| Response.LongLineIsCut | src/nw_engine.c:679-689 | a header that does not fit is cut and its tail is the next header |
| Response.EmptyLineIsClose | src/nw_engine.c:1110 | an empty line ends the loop as if the peer had closed, with the rest unread |
| Readers.Reader.BufFill | src/nw_engine.c:662-674 | at least one byte is buffered, or the stream has ended; the stream itself is untouched |
| Readers.Reader.ReadLine | src/nw_engine.c:676-690 | refines reading a line from the plain stream, for every fragmentation |
| Readers.Reader.ReadBlock | src/nw_engine.c:693-708 | exactly the next len bytes, or -1 with the stream exhausted |
| Readers.Reader.SkipBlock | src/nw_engine.c:1120-1127 | exactly len bytes are passed over, or -1 with the stream exhausted |
| Messages.MessageTrip | src/nw_engine.c:1106-1169 | one trip of the loop consumes exactly one framed message, whatever its fields, and delivers its payload in the format known behind it |
| Messages.MessagesDecode | src/nw_engine.c:1106-1173 | for any server: complete responses come out as their payloads in order, and what follows the last audio-stop is untouched |
| Messages.TooFewStops | src/nw_engine.c:1109-1110 | without enough audio-stops everything is delivered and the loop fails |
| Messages.SucceedsIffStopsArrive | src/nw_engine.c:1134-1172 | on whole messages the loop succeeds exactly when nseg audio-stops arrive |
| Decoding.EventIsMessage | tests/mock_wyoming_server.py:29-46 | every encoded event is framed as it announces, and the loop makes of it what the event says |
| Decoding.ResponsesDecode | src/nw_engine.c:1106-1173 | complete responses come out as their payloads in order, and what follows the last audio-stop is untouched |
| Decoding.EventsAreMessages | tests/mock_wyoming_server.py:49-69 | and so are whole answers: their payloads, audio-stops and format |
| Decoding.SucceedsIffStopsArrive | src/nw_engine.c:1134-1172 | on whole events the loop succeeds exactly when nseg audio-stops arrive |
| Truncation.CutPassesIff | src/nw_engine.c:676-690 | of a stream of messages cut at any byte, the loop reports success exactly if the audio-stop it waits for is among the whole ones, or end of file tears a header line that, completed by what older lines left in the buffer, reads as that audio-stop |
| Truncation.TornLinePassesIff | src/nw_engine.c:681-682 | the same for one torn line behind whole messages |
| Truncation.CutResponses | src/nw_engine.c:1106-1172 | of responses cut at any byte only their own audio is delivered, nothing stays unread, and the exact condition for success |
| Truncation.StaleStopCounts | src/nw_engine.c:681-682 | the mock server's own headers, cut one to ten bytes into the last one, pass for complete |
| Pairing.AnswersAreOwn | src/nw_engine.c:1086-1100 | what the server says after an utterance's requests is the answers to exactly these |
| Pairing.LinkCarriesOwn | src/nw_engine.c:1086-1172 | whatever the link still carries is a prefix of them |
| Pairing.OwnResponses | src/nw_engine.c:1106-1173 | the loop plays nothing else, leaves nothing, and succeeds if all of them arrive; if they are cut, exactly when the cut passes |
| Session.Session.PlayPayload | src/nw_engine.c:711-725 | the payload goes to playback in the pieces recv cut, or -1 with the stream exhausted |
| Session.Session.ReadData | src/nw_engine.c:1112-1129 | the data block is mined for the format, or skipped when it is too long |
| Session.Session.OneEvent | src/nw_engine.c:1112-1168 | refines one trip of the loop behind its header line |
| Session.Session.Receive | src/nw_engine.c:1102-1172 | the buffered loop refines the loop over the plain stream, for every fragmentation; its total is the length of the audio; and playback is handed exactly its frames, in the pieces recv cut, with the device opened, reopened and pre-rolled for each as its format asks when nothing is refused |
| Session.Session.SendOne | src/nw_engine.c:1044-1077 | the line is sent, or the connection is closed, or memory is short and nothing happened |
| Session.Session.SendRequests | src/nw_engine.c:1096-1100 | one request per greedy segment, up to the first failure |
| Session.Session.SendRecv | src/nw_engine.c:1086-1175 | one attempt sends the segments of the text and runs the loop over exactly the stream this connection carries behind them; a failed send leaves no connection and playback untouched; else the frames are performed and the buffer drained |
| Session.Session.SendRecvPaired | src/nw_engine.c:1086-1175 | on a clean connection only answers to the own requests are played and the connection is left clean; after a failed allocation it is clean exactly if nothing had been sent that could be answered |
| Session.Session.Connect | src/nw_engine.c:901-968 | the held connection is reused, without asking anybody, exactly for its endpoint; else NWERR_RESOLVE exactly if the name does not resolve, NWERR_CONNECT exactly if it does and the host does not answer, and otherwise a new connection to that host |
| Session.Session.Attempt | src/nw_engine.c:1183-1189 | one attempt: on the held connection exactly if it leads to the endpoint, else on a new one from its first byte |
| Session.Session.Say | src/nw_engine.c:1179-1193 | at most two attempts, the second only behind a failed send, which played nothing, and on a connection of its own; it ends without a connection exactly if the network refuses one; on a reliable network one attempt is made and everything is sent; what is played is what the last one read from its one connection |
| Session.Session.Close | src/nw_engine.c:783-795 | the buffer is played out, the connection given up and the capture file finished: it holds the last of the samples that fitted the buffer, all of them if it could be opened at once |
| Exchanges.SegmentedOnce | src/nw_engine.c:1096-1100 | the requests of an attempt are determined by the text, and their texts put together are it |
| Exchanges.PairedAttempt | src/nw_engine.c:1086-1175 | an attempt on a connection with nothing left to read gets answers to its own requests and nothing else; what a failed allocation leaves behind |
| Leftovers.AnswersOfEarlier | src/nw_engine.c:1094-1172 | with answers to k earlier requests unread, an attempt of m segments plays the next m answers in line, these first, and leaves k unread, its own last |
| Leftovers.NextPlaysThese | src/nw_engine.c:1096-1100 | behind a failed allocation with k requests out, an utterance of k segments plays their answers and none of its own |
| Leftovers.ForeignAnswer | src/nw_engine.c:1096-1100 | two such utterances, for any server: the second is reported as said |
| SessionRuns.SayAll | src/nw_engine.c:1086-1193 | over any number of utterances every attempt sends its own text's segments and reads what its connection carries right behind those of the attempts before it, so no audio of one utterance is ever played in another, however connections break; playback performs them in order |
| SessionRuns.PlayedIsOwn | src/nw_engine.c:1086-1175 | the audio played of an utterance is a prefix of the answers to its own requests, all of it if they arrived |
| SessionRuns.LinkHoldsIsWhole | src/nw_engine.c:1086-1175 | where the link carries all the answers they arrive, and the result is the length of their audio |
| SessionRuns.RunIsHeard | src/nw_engine.c:1086-1193 | when nothing is refused, utterances in one format each are heard once, in order, as their own answers' samples between two silences; the device gets every byte, the capture what fits the buffer |
| Lifetimes.Live | src/nw_engine.c:741-795 | a session with an AHI that refuses nothing, from its creation over any utterances to its end: all of the above; on a reliable network every utterance is said at once, and whole where the link holds; and a capture file of exactly the samples that fitted the buffer |
| Playback.HarmlessContent | src/nw_engine.c:364-379 | behind pieces that do no harm the buffer is the pre-roll and the byte-swapped samples, cut at capacity, however they were cut |
| Playback.CutsHarmlessIff | src/nw_engine.c:367-379 | a way of cutting leaves the buffer as if nothing had been cut, for all samples, exactly if no odd piece with bytes behind it ends below the capacity |
| Playback.WaitCoversAudio | src/nw_engine.c:622-627 | the ticks last as long as the buffer, and half a second more |
| Player.Player.CopySwap16 | src/nw_engine.c:369-379 | the bytes of every whole sample are exchanged, an odd last byte stays as it was, and nothing else changes |
| Player.Player.WriteSilence | src/nw_engine.c:572-589 | the head moves over bytes that are zero already, not beyond the capacity |
| Player.Player.WritePcm | src/nw_engine.c:572-589 | the swapped piece, cut at capacity, behind the head, the same bytes in the capture, and playback started once 32 KB are written and not before |
| Player.Player.Open | src/nw_engine.c:483-546 | an all-zero buffer in the format asked for, or a partial state that close unwinds |
| Player.Player.Drain | src/nw_engine.c:596-641 | plays the buffer with its trailing silence, waits as long as that lasts and half a second more, and leaves it all zero |
| Player.Player.Close | src/nw_engine.c:643-658 | unwinds an open and a partly opened session alike |
| Player.Player.Prepare | src/nw_engine.c:1146-1164 | open in the right format, for 16-bit samples with a rate and any channels if nothing is refused, shut without one of these; with one pre-roll per utterance; a further chunk in the same format changes nothing; when nothing is refused, exactly as `Sounds.Prepared` says |
| Sounds.DrainedSound | src/nw_engine.c:596-641 | what is played of pieces that do no harm: silence, swapped samples, silence, cut at capacity |
| Sounds.PlayableIsReached | src/nw_engine.c:1146-1164 | every frame with a rate other than 0, a width of 2 and channels other than 0 finds an open device, whatever came before |
| Sounds.StoredSnoc | src/nw_engine.c:572-589 | of each piece exactly what still fits the buffer is stored and captured |
| Sounds.UtteranceIsHeard | src/nw_engine.c:1139-1171 | an utterance in one format is heard once, as its samples between two silences, whatever was played before and however it was cut |
| Sounds.BothAreHeard | src/nw_engine.c:1146-1157 | an utterance that changes its format in the middle is heard as two, each with its own silences, and no sample is dropped at the change |
| Sounds.UnknownIsSilent | src/nw_engine.c:1153-1156 | audio before any format is known is not played |
| Sounds.SoundIs | src/nw_engine.c:364-379 | a sound byte by byte: rate / 16 samples of silence, the samples with their bytes exchanged, as much silence; nothing behind 512 KB |
| PlayerRuns.EvenIsIntact | src/nw_engine.c:367-379 | chunks of even pieces lose no sample, from whichever chunk on they are written |
| PlayerRuns.PlayAll | src/nw_engine.c:572-641 | over any run in one format each utterance is heard as its own samples between silences, and nothing of it is left for the next; when nothing is refused all of them are heard, whole |
| Wav.Tap.Open | src/nw_engine.c:414-444 | the header skeleton is written once, in front of the first samples |
| Wav.Tap.Write | src/nw_engine.c:447-455 | the samples are appended |
| Wav.Tap.Finalize | src/nw_engine.c:458-472 | both sizes are patched in place |
| Wav.ReadWav | tests/check_audio_wav.py:35-67 | the chunk walker terminates on every input with the last fmt and data chunks |
| Wav.CaptureReadsBack | tests/check_audio_wav.py:35-67 | a captured file reads back with its rate, channels and samples exactly if their length fits the size field |
| Wav.CaptureIsRead | tests/check_audio_wav.py:35-67 | every finished capture file reads back as 16-bit samples, byte for byte, if they fit the size field |
| Wav.CaptureFields | src/nw_engine.c:414-472 | every field of a finished file, least significant byte first: sizes, PCM, channels, rate, bytes a second, bytes a frame, bits |
| Wav.WalkFinds | tests/check_audio_wav.py:45-55 | the walker finds the chunks of any file, of any name and length, with their padding |
| Wav.FileReads | tests/check_audio_wav.py:35-67 | of any such file the fields of its last fmt chunk, whether it is float, and its last data chunk; an error without these |
| DeviceSafety.StepKeepsInv | src/nw_engine.c:1307-1471 | every step of owner, task and callers keeps the handshake, port, queue and caller invariants |
| DeviceHistory.RunsAreSafe | src/nw_engine.c:1307-1471 | in no interleaving does a step touch the context or the port outside its lifetime, also when the port could not be created |
| DeviceHistory.ExactlyOneReply | src/nw_engine.c:1328-1356 | a request is never replied twice, and exactly once when close has returned |
| DeviceHistory.RunsKeepOnePlace | src/nw_engine.c:1328-1356 | in every run and at every moment a submitted request is in exactly one place: on its way, queued, held by the task, removed and waiting for its reply, or replied |
| DeviceHistory.ClientKeepsPlaces | src/nw_engine.c:1473-1539 | submit, abort and flush keep every request in exactly one place; which one, `DeviceSteps` says |
| DeviceHistory.TaskKeepsPlaces | src/nw_engine.c:1328-1356 | and so does the task |
| DeviceHistory.FirstComeFirstServed | src/nw_engine.c:1328-1356 | requests that are not aborted or flushed are taken in the order they were posted, all of them before close returns; the last of these are drained unserved, exactly those that close found queued when it came in front of a look at `shutting`, and none otherwise |
| DeviceHistory.PullKeepsOrder | src/nw_engine.c:1487-1539 | taking requests out of the queue leaves the others in order |
| DeviceSteps.FlushEmptiesQueue | src/nw_engine.c:1527-1538 | in every reachable state a flush leaves no request in the queue, replies all that were there, in their order, and leaves the shutdown message; the contents are those of `Unit.Flush` |
| DeviceSteps.AbortTakesOne | src/nw_engine.c:1499-1511 | in every reachable state an abort takes out exactly its own request, if it is queued, for a reply of its own, and the others keep their order; the contents are those of `Unit.Abort` |
| DeviceSteps.SubmitCall | src/nw_engine.c:1473-1485 | a submit puts its request behind all others, or replies it at once without a port |
| DeviceSteps.AbortCall | src/nw_engine.c:1487-1512 | an abort replies its request if it is queued, and else changes nothing |
| DeviceSteps.FlushCall | src/nw_engine.c:1514-1539 | a flush replies every queued request, in queue order |
| DeviceSteps.ServeTurn | src/nw_engine.c:1332-1343 | in its loop the task serves and replies the oldest request, ends at the shutdown message, and looks at `shutting` when nothing is queued |
| DeviceSteps.DrainTurn | src/nw_engine.c:1348-1355 | in the drain it replies the oldest request unserved and passes over the shutdown message |
| DeviceShutdown.ClosingStep | src/nw_engine.c:1454-1461 | behind close's PutMsg every possible step brings the end nearer |
| DeviceShutdown.NextStep | src/nw_engine.c:1328-1370 | until close has returned somebody can always go on |
| DeviceShutdown.ShutdownEnds | src/nw_engine.c:1443-1471 | in every run close returns within a bound given by the task's position and the length of its queue |
| DeviceRules.PostToDeadPort | src/nw_engine.c:1454-1456 | without Forbid() around the hook some run posts the shutdown message to a deleted port |
| DeviceRules.SubmitToDeadPort | src/nw_engine.c:1473-1485 | if close overlaps another task's submit, some run posts a request to a deleted port |
| DeviceRules.LostRequest | src/nw_engine.c:1344-1360 | or loses it between drain and DeleteMsgPort: never replied |
| DeviceRules.DrainedUnserved | src/nw_engine.c:1345-1355 | under both assumptions, too, some run replies a request that was never served |
| DeviceRules.SafeIffAssumptions | src/narrator_device.c:74-127 | memory safety in every interleaving, exactly under both assumptions |
| ExecList.MsgList.AddTail | src/nw_engine.c:1484 | PutMsg: the list with one node more at its end, links and sentinels intact |
| ExecList.MsgList.Remove | src/nw_engine.c:1503 | Remove: the list without the node, whose own pointers stay |
| ExecList.MsgList.RemHead | src/nw_engine.c:1333 | GetMsg: the oldest node, or none |
| DeviceUnit.Unit.Abort | src/nw_engine.c:1487-1512 | 0 exactly if the request was queued: then it is taken out, marked and replied and the others keep their order |
| DeviceUnit.Unit.Flush | src/nw_engine.c:1514-1539 | all requests are replied in queue order and only the shutdown message stays; the saved successor is always a node of the list |
| DeviceUnit.Unit.ReplyMsg | src/nw_engine.c:1534 | only requests are ever replied; the node's links are its caller's from then on |
| DeviceUnit.Unit.Submit | src/nw_engine.c:1473-1485 | the request goes behind the others, or fails at once without a port |
| DeviceUnit.Unit.BeginIO | src/narrator_device.c:135-178 | error, IOF_QUICK, queue and replies of every command |
| DeviceUnit.CompletedOnce | src/narrator_device.c:135-178 | every command is completed in exactly one way: in place, by one reply, or later by the task |
| DeviceUnit.AbortIO | src/narrator_device.c:180-189 | -1 for null requests and units, else the abort |
| HostEscape.BufAppendf | src/wyoming.c:21-34 | the position moves only when everything fits and stays below the length |
| HostEscape.JsonEscape | src/wyoming.c:85-106 | a terminated string in bounds: the escapes of the longest prefix the loop's tests allow |
| HostEscape.EscDecodes | src/wyoming.c:85-106 | the string rules of RFC 8259 undo the escaping byte for byte |
| HostEscape.PrefixReadsBack | src/wyoming.c:85-106 | the far side reads an exact prefix, and the whole input when six bytes a character and the terminator fit |
| HostEscape.KeptIs | src/wyoming.c:88-103 | where the loop stops: in front of the first character with fewer than three bytes free, or fewer than seven if it needs six |
| HostEscape.KeptIsUtf8Iff | src/wyoming.c:88-103 | what is read of valid UTF-8 is valid exactly if the text has no continuation byte in front of which exactly two bytes of the buffer are left |
| HostEscape.CharacterTorn | src/wyoming.c:88-103 | it can end inside one |
| HostRequest.BuildVoice | src/wyoming.c:136-168 | the voice object, exactly if it fits its 512 bytes |
| HostRequest.VoiceFits | src/wyoming.c:137-168 | only the speaker can be too long |
| HostRequest.LineFits | src/wyoming.c:169-179 | the line buffer is never too small |
| HostRequest.LineIsOneLineIff | src/wyoming.c:131-135 | the request has no line feed exactly if the speaker has none |
| HostRequest.PeerSeesOneLineIff | src/wyoming.c:131-135 | the peer splits it off as one line exactly then |
| HostRequest.SpeakerBreaksLine | src/wyoming.c:131-135 | a speaker of a line feed makes two lines of it |
| HostRequest.RequestReadsBack | src/wyoming.c:121-181 | without language and speaker the engine's reader of requests parses text and voice, up to the two cuts |
| HostVoice.RequestMeansIff | src/wyoming.c:121-181 | with any voice and language a reader of JSON objects gets text, name, language and speaker back, up to the three cuts, exactly if the speaker is empty or a number of section 6 of RFC 8259 |
| HostVoice.LeadingZeros | src/wyoming.c:132-135 | with the speaker 007 the whole request is unreadable, with -5 it is not |
| HostRequest.TextReadsBack | src/wyoming.c:121-181 | with any voice, language and speaker the text comes out as an exact prefix |
| HostRequest.SendSynthesize | src/wyoming.c:121-181 | the line is sent whole, or a proper prefix of it, or nothing if the voice does not fit |
| HostScan.FindKeyIn | src/wyoming.c:41-58 | the value behind the first quoted occurrence of the key that a colon follows |
| HostScan.JsonFindStr | src/wyoming.c:69-81 | the unescaped string, at most as long as the buffer |
| HostScan.UnquoteUndoes | src/wyoming.c:69-81 | the copying undoes backslashes in front of quotation marks and backslashes, as far as there is room |
| HostScan.FieldReadsLong | src/wyoming.c:41-67 | with any blanks and tabs around the colon and any sign the number of a field is read |
| HostScan.NullIsNothing | src/wyoming.c:60-67 | a value that begins with n is no number, every other is read as one |
| HostEvents.ReadEvent | src/wyoming.c:251-294 | refines reading an event from the plain stream, for every fragmentation, every content of its header buffer, and with or without memory for the data block |
| HostEvents.BlockFills | src/wyoming.c:266-294 | a data block fills in the type and the payload length only where the header has none; its numbers of the format override the header's |
| HostEvents.EventDoes | src/main.c:74-110 | audio is written out, an audio-stop ends the loop, and of any other event the payload is passed over |
| HostEvents.ReadPieces | src/main.c:83-95 | the payload through an 8 KB buffer; of one cut short, the whole pieces; a cut and a missing length are told from a whole payload |
| HostEvents.Probe | src/main.c:74-110 | the loop refines the loop over the plain stream |
| HostDecoding.ScannersAgree | src/wyoming.c:41-67 | both field scanners read the same numbers in every flat header |
| HostDecoding.EventReads | src/wyoming.c:251-294 | an encoded event is reported as what it is, with its payload left to be read |
| HostDecoding.ProbeDecodes | src/main.c:74-110 | all payloads before the audio-stop, in order, and nothing behind it |
| HostDecoding.ProbeRunsDry | src/main.c:74-110 | without an audio-stop the same, and a failure |
| HostDecoding.FormatsAgreeIff | src/main.c:78-80 | the probe, which never goes back to zero, ends with the engine's format exactly if no field falls back to zero |
| HostDecoding.DecodersAgree | src/wyoming.c:191-300 | on every stream with one audio-stop, each with its own fragmentation, engine and probe deliver the same samples and leave the same bytes |
| HostDecoding.RateFallsBack | src/main.c:78-80 | behind a chunk that gives the rate as 0 they report different formats |
| Translator.Translate | src/translator_library.c:69-80 | 0 with the whole input and a terminator if it fits; else len - 1 bytes, a terminator and -(len - 1); 0 and an empty string for a negative length; nothing at all without room |
| Translator.ZeroMeansDone | src/translator_library.c:64-80 | 0 means done exactly if the buffer has room for a byte |
| Translator.TranslateAll | src/translator_library.c:64-80 | resuming at the negated result terminates, positions grow, and the pieces put together are the input |

## Left out

- How a name is looked up and a socket made ready, time-outs and socket options (src/nw_engine.c:916-962,
  src/net_amiga.c, src/net_posix.c): each of the two steps succeeds or fails as `Session.Net` says.
- AHI, dos.library, codesets.library and exec themselves: their calls succeed or fail in any order; a `Write` to
  a file that has been opened writes everything.
- Transcoding to UTF-8 (src/nw_engine.c:852-897), voice selection, volume, `looks_phonetic`, `pref_get` and the
  preferences file: the text and the voice the session is given are its inputs.
- The width of C integers in numbers parsed from headers, in lengths and in totals: numbers are unbounded.
  `Events.Sized` keeps the encoded ones within a C long.
- Alignment: `copy_swap16` reads 16-bit words at the address the cursor happens to have; the model swaps bytes.
- A stack buffer that is read beyond its end: where the engine leaves a line unterminated and no older
  terminator follows, the model's string ends with the buffer.
- A text, voice or key with a NUL byte inside, other than what a C string can hold.
- Signals sent to the wrong task when another task closes the device than opened it; `DeviceTask.Rules` keeps
  only what such a close does to messages and memory.
- Host names longer than the 127 characters the preferences have room for (src/nw_engine.h:21): the engine would
  keep a cut copy of one and connect anew every time.
- A session that could not be created: the task then fails every write at once (src/nw_engine.c:1337-1338); for
  queue, replies and shutdown this is `TaskFinish` like any other write.
- HostRequest.RequestReadsBack: without language and speaker, which the engine's own requests do not have;
  `HostVoice.RequestMeansIff` has all fields.
- DeviceShutdown.ShutdownEnds: takes every write in progress to finish, which the socket's time-out provides.
- Readers.Reader.ReadLine: for the host's reader of the same shape (src/wyoming.c:191-249) no second copy is
  proved.
- src/audio_ahi.c, src/audio_host.c, src/saytest.c, src/devtest.c, src/failtest.c and tools: copies of
  modelled code, test drivers and floating-point reports.
