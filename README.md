# Voice agent: session, reply splitter, history and audio buffers

This project models the core of a real-time voice assistant in Dafny and
proves properties of that model. The system has three parts:

- A browser client records microphone audio and streams it as 16 kHz PCM. It
  plays back synthesized speech through a `MediaSource`.
- A Socket.IO server forwards the audio to a streaming recognizer and relays
  transcripts. On `agent_reply` it streams a generated answer, captions it
  sentence by sentence and has it synthesized.
- A generator wrapper keeps a bounded, process-wide conversation history.

The modules follow the source files:

- `Realtime` models one connection of `realtime-server/src/index.ts`. It is a
  class whose fields are the handlers' closure state (`dgLive`, `ttsAbort`,
  `ttsQueue`, `ttsPlaying`, `audioChunkCount`, `firstChunkReceived`). Each
  socket handler is a method that runs to completion. The object also logs the
  events emitted on the socket, the calls made on recognition streams and the
  texts posted to the speak endpoint.
- `Segmenter` models the sentence splitter of `agent_reply`. The regular
  expression `([^.!?\n]+[.!?])(\s|$)` is written out as a scanner (`Exec`). Its
  matches over a buffer form a `Layout`. The `exec` loop and `replace` both
  read the buffer off that layout. `SegmenterExamples` works through concrete
  replies.
- `Reply` holds the specification functions for what `agent_reply` emits:
  the captions, the composed `spoken` text and its single synthesis request.
- `Speech` holds what one request to the speak endpoint can return, the events
  a flush emits for it, and the `processTTSQueue` loop as a function.
- `Strings` models JavaScript's whitespace class and `trim`. `Protocol` holds
  the socket events and the decimal printing of HTTP status codes.
- `Gemini` models `realtime-server/src/gemini.ts`: the history as a class, the
  bound on it, the chunk filter and the fallback.
- `Player` models the `StreamPlayer` of `web/lib/audio/player.ts`.
- `Recorder` models the closure state of `web/lib/audio/recorder.ts`, with
  `concatFloat32`, `floatTo16BitPCM` and `resampleTo16k` as array methods.

The model treats outside services as inputs:

- For the recognizer: whether opening succeeds, whether a `send` throws, and
  each transcript or error message it delivers.
- For the speak endpoint: one `SpeakResponse` per request. It may be a
  rejection, a non-ok status, a missing body, or a streamed body that may end
  in an exception.
- For the generator: its chunk texts and whether it failed.
- For the browser: whether the MIME type is supported and whether each
  `appendBuffer` call is accepted.

The model follows the code where its behaviour may differ from what a reader
expects:

- `agent_reply` speaks the whole composed reply once, after generation ends. It
  does not speak each sentence as it completes.
- Sentences from the `exec` loop are captioned untrimmed: `" B!"` keeps its
  leading space. Only the tail is trimmed.
- `stopAnyTTS` emits `tts_done` on every call, even when nothing was playing.
  So a flush always opens with one `tts_done`, and a completed flush emits a
  second one.
- The conversation history is one module-level array shared by every
  connection of the process. It is not per session.
- `start` does not stop synthesis. Only `cancel_tts`, `disconnect` and a new
  flush do.
- The repository's `types.ts` documents `audio_chunk` as WebM/Opus at 48 kHz. The server opens
  recognition for linear16 at 16 kHz, and the recorder produces exactly that.

## Model

| member | source | states |
|---|---|---|
| Strings.Trim | realtime-server/src/index.ts:341 | `trim` yields nothing exactly when the string is all whitespace; otherwise the result neither starts nor ends with whitespace |
| Strings.TrimSpan | realtime-server/src/index.ts:334-335 | `trim` returns a contiguous middle of the string and drops only all-whitespace ends |
| Strings.TrimIdempotent | realtime-server/src/index.ts:273 | trimming the already trimmed reply again (the flush's own test) changes nothing |
| Strings.NonEmptyConcat | realtime-server/src/gemini.ts:54-61 | dropping the empty chunks loses no text: the yielded chunks concatenate to the same response text |
| Protocol.DecimalString | realtime-server/src/index.ts:295 | a printed status is a non-empty run of digits without a leading zero |
| Protocol.DecimalRoundTrip | realtime-server/src/index.ts:295 | the status printed in `HTTP <status>` reads back as that status |
| Segmenter.RunEnd | realtime-server/src/index.ts:324 | `[^.!?\n]+` taken greedily ends at the first terminator, newline or buffer end |
| Segmenter.NoMatchInRun | realtime-server/src/index.ts:324 | when the maximal run is not followed by a terminator and `\s` or the end, no match starts anywhere inside the run |
| Segmenter.Exec | realtime-server/src/index.ts:325 | `exec` from `lastIndex` returns a span at or after `lastIndex`, ordered start ≤ terminator < end ≤ buffer length |
| Segmenter.ExecMatches | realtime-server/src/index.ts:324-326 | every span `exec` returns is a match: body characters, one terminator, then one whitespace character or the end of the buffer |
| Segmenter.ExecLeftmost | realtime-server/src/index.ts:324-325 | `exec` returns the leftmost match: none starts before it, and none at all when it returns nothing |
| Segmenter.LayoutCovers | realtime-server/src/index.ts:325-332 | the kept text and the matches, in order, rebuild the buffer exactly: nothing lost or reordered |
| Segmenter.LayoutAlternates | realtime-server/src/index.ts:325-332 | the buffer splits into kept text and matches that alternate, starting and ending with kept text, so the matches do not overlap |
| Segmenter.LayoutCuts | realtime-server/src/index.ts:324-328 | every match is a well-formed sentence plus one whitespace character, or nothing when it ends the buffer |
| Segmenter.Replace | realtime-server/src/index.ts:332 | `buffer.replace(re, '')`: the kept text of the layout, in order; with LayoutCovers, LayoutAlternates and LayoutCuts, exactly the matched spans (sentence and its one whitespace character) are deleted and the rest keeps its order |
| Segmenter.SentencesAreMatches | realtime-server/src/index.ts:325-328 | every sentence the loop emits is one or more characters other than `.!?` and newline, followed by one of `.!?` |
| Segmenter.SegmentsAreSentences | realtime-server/src/index.ts:319-332 | every sentence emitted over the whole stream is well formed |
| Segmenter.Segments | realtime-server/src/index.ts:319-332 | the sentences emitted and the pending buffer after each generated piece; SegmentsAreSentences states that every emitted sentence is well formed, and the examples below compute it on concrete replies |
| Segmenter.SentenceNotBlank | realtime-server/src/index.ts:324-328 | no sentence is blank: its terminator survives `trim` |
| SegmenterExamples.NewlineDeferred | realtime-server/src/index.ts:319-339 | for pieces `"Hi\n"` then `"There."`, only `"There."` is emitted as a sentence, and `"Hi\n"` stays pending until the tail |
| SegmenterExamples.OrderedReply | realtime-server/src/index.ts:319-332 | pieces `"A."`, `" B!"`, `" C"` give sentences `"A."` and `" B!"` (leading space kept) with `" C"` pending |
| SegmenterExamples.DecimalSplit | realtime-server/src/index.ts:324-332 | `"3.14 is pi."` emits `"14 is pi."` and leaves `"3."` in the buffer |
| SegmenterExamples.HelloSplit | realtime-server/src/index.ts:324-332 | `"Hello there. How are you"` emits `"Hello there."` and keeps `"How are you"` for the end of the stream |
| Speech.FlushOutcomes | realtime-server/src/index.ts:272-314 | a non-blank flush opens with `tts_done`; a non-ok status emits exactly `tts_done` then `DG_TTS` with `HTTP <status>` and no chunk; a completed body emits its chunks in order between two `tts_done` |
| Speech.FlushEvents | realtime-server/src/index.ts:272-314 | the events of one flush; FlushOutcomes states them case by case and FlushHasNoCaptions states that none is a caption |
| Speech.RequestEvents | realtime-server/src/index.ts:277-314 | the events of the flush's request; RequestHasNoCaptions states that none is a caption or `thinking` |
| Speech.FlushHasNoCaptions | realtime-server/src/index.ts:272-314 | a flush emits no `reply_text` and no `thinking` |
| Speech.RequestHasNoCaptions | realtime-server/src/index.ts:282-314 | the request part of a flush emits no `reply_text` and no `thinking` |
| Speech.DrainFifo | realtime-server/src/index.ts:81-96 | the queue loop posts the non-empty entries of a prefix of the queue, in FIFO order, after the earlier requests; what stays queued is the rest of the queue; with no exception, every non-empty entry is posted and nothing stays |
| Speech.Drain | realtime-server/src/index.ts:81-96 | the `while`/`shift` loop of `processTTSQueue` as a function; DrainFifo states its FIFO order and what stays queued, DrainEvents what it emits |
| Speech.DrainEvents | realtime-server/src/index.ts:85-90 | the loop emits, after the earlier events, exactly the chunk events of the requests it posted, in the order it posted them |
| Speech.SpeakAll | realtime-server/src/index.ts:76-78 | the chunk events of a run of requests, one response after the other; SpeakAllChunks states that they are all `tts_chunk` |
| Speech.SpeakAllChunks | realtime-server/src/index.ts:76-78 | the requests of the queue loop emit only `tts_chunk` events, so its single `tts_done` is the one from `finally` |
| Reply.SpacedConcat | realtime-server/src/index.ts:329 | `spoken` built over two runs of sentences is the two results concatenated |
| Reply.CaptionsOfCaptionEvents | realtime-server/src/index.ts:328 | reading the `reply_text` events back gives exactly the captions, in order |
| Reply.CaptionedSentences | realtime-server/src/index.ts:325-330 | the `exec` loop captions exactly the buffer's sentences in order and appends each with one space to `spoken` |
| Reply.CaptionedSpoken | realtime-server/src/index.ts:325-330 | the `spoken` text after the `exec` loop is the old text followed by each sentence and a space |
| Reply.CaptionedEvents | realtime-server/src/index.ts:325-330 | the events of the `exec` loop are one `reply_text` per sentence of the buffer, in order |
| Reply.Captioned | realtime-server/src/index.ts:325-330 | the `exec` loop over one buffer as a function; CaptionedSentences states that it captions exactly the buffer's sentences and appends each with a space to `spoken` |
| Reply.SpeechHasNoCaptions | realtime-server/src/index.ts:340-356 | the speaking step and its `catch` emit no `reply_text` and no `thinking` |
| Reply.ReplyCaptions | realtime-server/src/index.ts:257-358 | a blank request emits nothing; otherwise `thinking` comes first and only once, the captions seen are the loop sentences then the tail, and every caption is non-blank |
| Reply.ReplyOrder | realtime-server/src/index.ts:261-268 | a non-blank request emits `thinking` before every caption and every synthesis event |
| Reply.ReplyEvents | realtime-server/src/index.ts:257-358 | every event of one `agent_reply`; ReplyCaptions, ReplyOrder and SpokenIffCaptions state its order, its captions and when it speaks |
| Reply.CaptionOrder | realtime-server/src/index.ts:267-344 | `thinking`, then the captions, then events without captions: exactly those captions are seen, and `thinking` only first |
| Reply.CaptionsNotBlank | realtime-server/src/index.ts:328-337 | every caption of a reply is non-blank |
| Reply.TailNotBlank | realtime-server/src/index.ts:334-337 | the tail caption, if there is one, is non-blank |
| Reply.SpacedBlankIff | realtime-server/src/index.ts:329 | the loop's `spoken` is blank exactly when no sentence was emitted |
| Reply.SpokenIffCaptions | realtime-server/src/index.ts:334-344 | the reply is sent to synthesis exactly when at least one caption was emitted |
| Gemini.TrimHistory | realtime-server/src/gemini.ts:36-42 | the history is trimmed only when it exceeds 10 entries, then to exactly 10: the first entry, then the newest entries in their order, the last one kept |
| Gemini.FallbackLast | realtime-server/src/gemini.ts:69-72 | on failure the fallback is yielded exactly once, last, after every chunk yielded before |
| Gemini.Yielded | realtime-server/src/gemini.ts:54-72 | the texts the generator yields; FallbackLast states where the fallback goes, and Collect is the loop that produces the non-empty chunks |
| Gemini.Collect | realtime-server/src/gemini.ts:54-61 | the loop yields exactly the non-empty chunks, and `responseText` is the concatenation of all chunks |
| Gemini.TrimAfterUser | realtime-server/src/gemini.ts:30-42 | after the user turn is pushed and the bound applied, the history holds 2 to 10 entries, the system entry first and the user turn last; it changed iff the length exceeded 10 |
| Gemini.Conversation.constructor | realtime-server/src/gemini.ts:21-26 | the history starts as the system prompt with the model role |
| Gemini.Conversation.PushUser | realtime-server/src/gemini.ts:30-42 | the user turn is appended and the bound applied; at most 10 entries remain, system entry first |
| Gemini.Conversation.StreamReply | realtime-server/src/gemini.ts:28-72 | yields the non-empty chunks, plus the fallback on failure; the model turn with the full response is appended only when the stream completed |
| Realtime.OpenFresh | realtime-server/src/index.ts:117-127 | opening a never-used stream when none is open leaves exactly that stream open |
| Realtime.Connection.constructor | realtime-server/src/index.ts:44-47 | a connection starts with no stream, no controller, an empty queue, zeroed counters and nothing emitted |
| Realtime.Connection.StopAnyTTS | realtime-server/src/index.ts:49-59 | the controller is dropped, the queue emptied, the playing flag cleared, exactly one `tts_done` emitted; the resulting state is fixed, so a second call changes no state |
| Realtime.Connection.SpeakSentence | realtime-server/src/index.ts:61-79 | a new controller and one request; the body's chunks are forwarded in order; a refused or bodiless response emits nothing; an exception is passed on |
| Realtime.Connection.EmitChunks | realtime-server/src/index.ts:76-78 | one `tts_chunk` per chunk, in order, and nothing else changes |
| Realtime.Connection.ProcessTTSQueue | realtime-server/src/index.ts:81-96 | no effect while playing; otherwise the queue is drained as `Speech.Drain` says, then the controller is dropped and the flag cleared; the events are the chunks of the posted requests in order, then exactly one `tts_done`, even after an exception |
| Realtime.Connection.FlushSentenceToTTS | realtime-server/src/index.ts:272-315 | a blank sentence changes nothing; otherwise `stopAnyTTS`, one request for the sentence, its events, and the controller dropped only after a completed body |
| Realtime.Connection.Request | realtime-server/src/index.ts:277-314 | a non-ok status emits `DG_TTS`; a body's chunks are forwarded, with `tts_done` when it completes; a rejection or stream exception is passed on |
| Realtime.Connection.Start | realtime-server/src/index.ts:98-187 | the previous stream is finished and closed first; a new stream opens in the requested language (`en-US` by default) or `DG_ASR_OPEN` is emitted; afterwards only the new stream is open |
| Realtime.Connection.EndPrevious | realtime-server/src/index.ts:105-116 | the previous stream gets `finish` then `close` and is forgotten; no stream is left open |
| Realtime.Connection.OpenNew | realtime-server/src/index.ts:117-127 | a fresh stream is created in the given language and becomes the only open one |
| Realtime.Connection.OnTranscript | realtime-server/src/index.ts:141-156 | an empty transcript is dropped; a final one becomes `asr_final`, an interim one `asr_partial` |
| Realtime.Connection.OnAsrError | realtime-server/src/index.ts:159-166 | a stream error becomes one `DG_ASR` error |
| Realtime.Connection.AudioChunk | realtime-server/src/index.ts:191-219 | without a stream nothing changes; otherwise the audio goes to the current stream, and the counter grows by one only when the send did not throw |
| Realtime.Connection.StopTalk | realtime-server/src/index.ts:221-250 | the counters are reset; the current stream, if any, is asked to finalize |
| Realtime.Connection.CancelTts | realtime-server/src/index.ts:252-254 | the same effect as `stopAnyTTS` |
| Realtime.Connection.Disconnect | realtime-server/src/index.ts:360-366 | the current stream is closed (the reference is kept) and synthesis stopped; no stream is left open; the audio counters are untouched |
| Realtime.Connection.CaptionMatches | realtime-server/src/index.ts:323-330 | the `exec` loop over the buffer does what `Reply.Captioned` specifies |
| Realtime.Connection.StreamCaptions | realtime-server/src/index.ts:319-333 | after the `for await`, the buffer is what the splitter left, `spoken` holds each emitted sentence with a space, and one caption was emitted per sentence |
| Realtime.Connection.CaptionTail | realtime-server/src/index.ts:334-339 | the trimmed buffer is captioned only when non-blank, and is what gets appended to `spoken` |
| Realtime.Connection.CaptionReply | realtime-server/src/index.ts:319-339 | all captions of a reply in order, and the composed `spoken` text |
| Realtime.Connection.SpeakReply | realtime-server/src/index.ts:340-356 | the trimmed reply is posted once when non-blank, leaving the queue empty, not playing, and the controller held unless the body completed; a blank reply changes no synthesis state; an abort is swallowed; any other exception becomes `LLM_STREAM` |
| Realtime.Connection.SpeakCaught | realtime-server/src/index.ts:342-355 | the flush of the reply inside the handler's `try`, then the `catch`'s event; the queue is emptied, playing cleared, and the controller held unless the body completed |
| Realtime.Connection.AgentReply | realtime-server/src/index.ts:257-358 | a blank request does nothing; otherwise the events are those of `Reply.ReplyEvents`; the history is updated as `streamGeminiReply` does; the trimmed reply is posted at most once, exactly when non-blank, and then the queue is empty, nothing is playing and the controller is held unless the body completed; otherwise the synthesis state is unchanged |
| Player.Delivered | web/lib/audio/player.ts:35-41 | the chunks that reach the source buffer are never more than those taken off the queue |
| Player.DeliveredAll | web/lib/audio/player.ts:34-41 | when no `appendBuffer` throws, every chunk taken reaches the source buffer, in order |
| Player.AcceptedAt | web/lib/audio/player.ts:35-41 | the accepted positions, increasing, and all of them |
| Player.DeliveredInOrder | web/lib/audio/player.ts:34-41 | the source buffer holds exactly the accepted chunks, in the order they were taken; a chunk whose append threw is dropped, not re-queued |
| Player.StreamPlayer.constructor | web/lib/audio/player.ts:5-25 | the queue starts empty, with no source buffer and nothing appended |
| Player.StreamPlayer.Append | web/lib/audio/player.ts:27-30 | the chunk joins the back of the queue, then one drain |
| Player.StreamPlayer.Drain | web/lib/audio/player.ts:32-42 | nothing happens without a source buffer, while it is updating, or when the queue is empty; otherwise exactly the front chunk leaves the queue and is appended, or dropped when the append throws |
| Player.StreamPlayer.OnSourceOpen | web/lib/audio/player.ts:15-24 | with an unsupported MIME type there is no source buffer and the queue is untouched; otherwise a source buffer is created and drained once |
| Player.StreamPlayer.OnUpdateEnd | web/lib/audio/player.ts:22 | after each `updateend`, one more drain |
| Player.StreamPlayer.End | web/lib/audio/player.ts:44-48 | `endOfStream` takes effect only while the source is open and idle; a failure is swallowed and changes nothing else |
| Recorder.FlushPeriod | web/lib/audio/recorder.ts:99 | the period is the requested one, 200 when none (0) was given, and never under 50: 0 gives 200, values under 50 give 50, others are kept |
| Recorder.JoinedLength | web/lib/audio/recorder.ts:33-36 | the allocated length, the sum of the frame lengths, is the length of the joined frames |
| Recorder.SetAt | web/lib/audio/recorder.ts:39 | `out.set(c, offset)` writes `c` from `offset` on and keeps the rest of the array |
| Recorder.ConcatFloat32 | web/lib/audio/recorder.ts:33-43 | the output has the summed length and holds the frames' samples in push order |
| Recorder.Clamp | web/lib/audio/recorder.ts:72 | the sample is clamped to [-1, 1] and unchanged inside it |
| Recorder.Truncate | web/lib/audio/recorder.ts:73 | the integer conversion of `setInt16` drops the fraction toward zero |
| Recorder.Quantize | web/lib/audio/recorder.ts:72-73 | every stored value fits a signed 16-bit integer |
| Recorder.QuantizeEnds | web/lib/audio/recorder.ts:72-73 | full scale maps to 0x7fff and -0x8000, silence to 0, over-range samples to the extremes; samples above -1/32768 and below 1/32767 truncate to 0, and every sample outside that band keeps its sign |
| Recorder.Int16LE | web/lib/audio/recorder.ts:73 | each value is stored in two bytes |
| Recorder.Int16RoundTrip | web/lib/audio/recorder.ts:73 | the two little-endian bytes read back as the value written, for every 16-bit value |
| Recorder.Pcm | web/lib/audio/recorder.ts:67-76 | the buffer holds exactly two bytes per sample |
| Recorder.PcmSlot | web/lib/audio/recorder.ts:71-74 | slot `i` of the buffer holds quantized sample `i` |
| Recorder.FloatTo16BitPCM | web/lib/audio/recorder.ts:67-76 | a buffer of twice the sample count, each slot the clamped and scaled sample in little-endian order |
| Recorder.Ratio | web/lib/audio/recorder.ts:51 | the rate ratio is positive |
| Recorder.Round | web/lib/audio/recorder.ts:52 | `Math.round` gives the integer within half of its argument, halves rounded up |
| Recorder.ResampledLength | web/lib/audio/recorder.ts:52 | the output length is `Math.round(n / ratio)`: within half a sample of `n / ratio` |
| Recorder.InterpolationInBounds | web/lib/audio/recorder.ts:57-59 | each output position reads a valid input index |
| Recorder.Interpolate | web/lib/audio/recorder.ts:57-61 | one output sample; InterpolateExact states that a position on an input sample copies it, and InterpolationInBounds that its indices are valid |
| Recorder.Resampled | web/lib/audio/recorder.ts:45-65 | the whole output of `resampleTo16k`; RatioOneIsIdentity, WholeFactorDecimates and From48k state its behaviour, and ResampleTo16k is the loop proved equal to it |
| Recorder.RatioOneIsIdentity | web/lib/audio/recorder.ts:50 | the equal-rate shortcut agrees with interpolating at ratio 1: same length and the same samples |
| Recorder.WholeFactorDecimates | web/lib/audio/recorder.ts:56-63 | downsampling by a whole factor k copies every k-th input sample |
| Recorder.InterpolateExact | web/lib/audio/recorder.ts:57-61 | an output position that lands exactly on an input sample copies that sample |
| Recorder.From48k | web/lib/audio/recorder.ts:17-18 | 48 kHz input gives ratio 3 and a third as many samples, rounded |
| Recorder.ResampleTo16k | web/lib/audio/recorder.ts:45-65 | with equal rates, the input array itself is returned; otherwise output sample `i` is the interpolation at `i * ratio` |
| Recorder.Recorder.constructor | web/lib/audio/recorder.ts:17-21 | a recorder starts stopped, with an empty buffer, no timer and nothing sent |
| Recorder.Recorder.OnAudioProcess | web/lib/audio/recorder.ts:23-28 | a captured frame is buffered only while running |
| Recorder.Recorder.Start | web/lib/audio/recorder.ts:80-99 | no effect when already running; otherwise running, an empty buffer and a timer with `FlushPeriod(intervalMs)` |
| Recorder.Recorder.Tick | web/lib/audio/recorder.ts:88-98 | an empty buffer sends nothing; otherwise one chunk goes out, the PCM of all buffered frames joined in push order and resampled to 16 kHz, and the buffer is emptied |
| Recorder.Recorder.Stop | web/lib/audio/recorder.ts:101-116 | not running, no timer, graph closed; no tick sends anything afterwards |

## Left out

- The recognizer SDK, the `fetch` to the speak endpoint and the generator's `generateContentStream` are not modelled. Their outcomes are method parameters.
- Recognition-stream calls are logged as `Realtime.AsrCall` values. A `finish`, `close` or `finalize` that throws is swallowed by the source, so the log does not record whether it threw.
- Asynchronous interleaving is not modelled. Each socket handler runs to completion as one method, and a barge-in (`cancel_tts` during `agent_reply`) reaches the reply only as an `AbortError` outcome of its request.
- The 50 ms pause between queued sentences is not modelled. It is timing only.
- Realtime.Connection.ProcessTTSQueue: nothing in the server ever enqueues to `ttsQueue` or calls `processTTSQueue`. The loop is modelled on its own. An exception from a request ends the loop and leaves the rest of the queue in place, as the code does.
- Realtime.Connection.StopAnyTTS: the abort of an in-flight request is a flag only. Its effect on that request is its `SpeakResponse`.
- The voice option and the request URL and headers are not modelled. They do not change which events are emitted.
- The message of a thrown error is a string parameter. The `e?.message || String(e)` choice and the transcript extraction `alt?.transcript || ''` happen outside the model.
- Console logging, Express, CORS, `/health`, environment loading and `server.listen` are left out as plumbing.
- The generation settings (temperature, top-p, token limit) and the model name are not modelled. They shape the text, which is an input.
- Gemini.Conversation.StreamReply: a failure of the call itself and a failure after some chunks are both "the chunks delivered, then failed", as the `catch` treats them alike.
- Realtime.Connection.Disconnect: the stream reference is kept after `close`, as the code does. A later `audio_chunk` would still send to it.
- The recognizer's `Open` and `close` listeners only log, and are left out.
- Recorder.FloatTo16BitPCM: samples are real numbers, so float rounding, NaN and infinities are not modelled.
- Recorder.ConcatFloat32: the copied samples are real numbers, and the conversion into a `Float32Array` is not modelled.
- Recorder.ResampleTo16k: positions and weights are exact reals, so double rounding is not modelled. The variable `pos` is never read and is not modelled.
- Recorder.Recorder.Start: the clearing of an existing timer when starting is unreachable, because a timer exists only while running, and that case returns first. The model keeps that invariant in `Valid`.
- Recorder.Recorder.Stop: the buffer is not cleared, as in the code. The next `start` clears it.
- The disconnection of the audio graph and the closing of the `AudioContext` are recorded as one `closed` flag. `getUserMedia` and the script processor are browser APIs.
- The `MediaSource` and `SourceBuffer` are modelled by the flags `StreamPlayer` reads: source open, buffer present, updating, ended. Decoding and playback are not modelled.
- Strings are sequences of Unicode scalar values, while JavaScript strings are UTF-16 code units. A lone surrogate cannot be represented, and a character outside the Basic Multilingual Plane is one position instead of two. The whitespace set and the terminators all lie in that plane, so what the splitter matches and what `trim` removes are the same.
- The React pages, the socket factory and the connectivity test script are not part of this model.
