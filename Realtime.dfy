/**
 * One Socket.IO connection of the realtime server: the state its handlers share
 * (the live recognition stream, the synthesis controller and queue, the audio
 * counters) and each handler run to completion. What the recognition stream,
 * the speak endpoint and the generator do is passed in; the calls made on the
 * recognition stream and the bodies posted to the speak endpoint are logged.
 */
module Realtime {
  import opened Wrappers
  import opened Strings
  import opened Protocol
  import opened Segmenter
  import opened Speech
  import opened Reply
  import Gemini

  /** A recognition stream, numbered in order of creation on this connection. */
  type Handle = nat

  /** A call made on a recognition stream. */
  datatype AsrCall =
    | Open(handle: Handle, language: string)
    | Send(handle: Handle, audio: Bytes)
    | Finalize(handle: Handle)
    | Finish(handle: Handle)
    | Close(handle: Handle)

  /** The language a `start` without one asks for. */
  const DefaultLanguage: string := "en-US"

  function Opened(calls: seq<AsrCall>): set<Handle>
    decreases |calls|
  {
    if calls == [] then {}
    else Opened(calls[..|calls| - 1]) + (if calls[|calls| - 1].Open? then {calls[|calls| - 1].handle} else {})
  }

  function Closed(calls: seq<AsrCall>): set<Handle>
    decreases |calls|
  {
    if calls == [] then {}
    else Closed(calls[..|calls| - 1]) + (if calls[|calls| - 1].Close? then {calls[|calls| - 1].handle} else {})
  }

  /** Every stream that a call was made on. */
  function Used(calls: seq<AsrCall>): set<Handle>
    decreases |calls|
  {
    if calls == [] then {} else Used(calls[..|calls| - 1]) + {calls[|calls| - 1].handle}
  }

  lemma CallsSnoc(calls: seq<AsrCall>, c: AsrCall)
    ensures Opened(calls + [c]) == Opened(calls) + (if c.Open? then {c.handle} else {})
    ensures Closed(calls + [c]) == Closed(calls) + (if c.Close? then {c.handle} else {})
    ensures Used(calls + [c]) == Used(calls) + {c.handle}
  {
    assert (calls + [c])[..|calls|] == calls;
  }

  /** A stream is closed or opened only by a call made on it. */
  lemma {:induction false} CallsUsed(calls: seq<AsrCall>)
    ensures Opened(calls) <= Used(calls) && Closed(calls) <= Used(calls)
    decreases |calls|
  {
    if calls != [] {
      CallsUsed(calls[..|calls| - 1]);
    }
  }

  /** Opening a never-used stream when none is live leaves exactly that one live. */
  lemma OpenFresh(calls: seq<AsrCall>, h: Handle, language: string)
    requires Used(calls) == Opened(calls) && Live(calls) == {}
    requires forall x :: x in Opened(calls) ==> x < h
    ensures var calls' := calls + [Open(h, language)];
      && Used(calls') == Opened(calls') && h in Opened(calls')
      && (forall x :: x in Opened(calls') ==> x < h + 1)
      && Live(calls') == {h}
  {
    CallsUsed(calls);
    assert h !in Closed(calls);
    CallsSnoc(calls, Open(h, language));
  }

  /** The streams opened and not yet closed. */
  function Live(calls: seq<AsrCall>): set<Handle> {
    Opened(calls) - Closed(calls)
  }

  /** `finish()` then `close()` on the previous stream, as `start` does before opening. */
  function Teardown(live: Option<Handle>): seq<AsrCall> {
    if live.Some? then [Finish(live.value), Close(live.value)] else []
  }

  /** The recognition side of the connection state. */
  datatype AsrState = AsrState(dgLive: Option<Handle>, calls: seq<AsrCall>, created: nat, chunkCount: nat, firstChunk: bool)

  /** The synthesis side of the connection state. */
  datatype TtsState = TtsState(abort: bool, queue: seq<string>, playing: bool, requests: seq<string>)

  class Connection {
    var dgLive: Option<Handle>
    /** An `AbortController` is held for the current synthesis request. */
    var ttsAbort: bool
    var ttsQueue: seq<string>
    var ttsPlaying: bool
    var audioChunkCount: nat
    var firstChunkReceived: bool
    /** Every event emitted to the client, in order. */
    var events: seq<ServerEvent>
    /** Every call made on a recognition stream, in order. */
    var asrCalls: seq<AsrCall>
    /** The text of every request posted to the speak endpoint, in order. */
    var ttsRequests: seq<string>
    /** How many recognition streams this connection has created. */
    var created: nat

    function Asr(): AsrState
      reads this
    {
      AsrState(dgLive, asrCalls, created, audioChunkCount, firstChunkReceived)
    }

    function Tts(): TtsState
      reads this
    {
      TtsState(ttsAbort, ttsQueue, ttsPlaying, ttsRequests)
    }

    /** Calls go only to streams this connection opened, `dgLive` is one of them,
        and no stream other than `dgLive` is left open: at most one is live. */
    ghost predicate Valid()
      reads this
    {
      && (dgLive.Some? ==> dgLive.value in Opened(asrCalls))
      && Used(asrCalls) == Opened(asrCalls)
      && (forall h :: h in Opened(asrCalls) ==> h < created)
      && Live(asrCalls) <= (if dgLive.Some? then {dgLive.value} else {})
    }

    /** A fresh connection: nothing open, nothing queued, nothing emitted. */
    constructor ()
      ensures Valid()
      ensures Asr() == AsrState(None, [], 0, 0, false)
      ensures Tts() == TtsState(false, [], false, []) && events == []
    {
      dgLive := None;
      ttsAbort := false;
      ttsQueue := [];
      ttsPlaying := false;
      audioChunkCount := 0;
      firstChunkReceived := false;
      events := [];
      asrCalls := [];
      ttsRequests := [];
      created := 0;
    }

    /** `stopAnyTTS`: drop the controller (aborting its request), empty the queue,
        clear the playing flag, and emit `tts_done` — on every call. */
    method StopAnyTTS()
      modifies this
      ensures Tts() == TtsState(false, [], false, old(ttsRequests))
      ensures events == old(events) + [TtsDone]
      ensures Asr() == old(Asr())
    {
      ttsAbort := false;
      ttsQueue := [];
      ttsPlaying := false;
      events := events + [TtsDone];
    }

    /** `speakSentence`: a new controller, one request for `sentence`, its body's
        chunks forwarded; a refused or bodiless response is dropped silently. */
    method SpeakSentence(sentence: string, resp: SpeakResponse) returns (thrown: Option<Thrown>)
      modifies this
      ensures thrown == ThrownBy(resp)
      ensures Tts() == TtsState(true, old(ttsQueue), old(ttsPlaying), old(ttsRequests) + [sentence])
      ensures events == old(events) + SpeakEvents(resp)
      ensures Asr() == old(Asr())
    {
      ttsAbort := true;
      ttsRequests := ttsRequests + [sentence];
      thrown := None;
      if resp.Streamed? {
        EmitChunks(resp.chunks);
        thrown := resp.failure;
      } else if resp.Rejected? {
        thrown := Some(resp.error);
      }
    }

    /** The `for await` over a response body: one `tts_chunk` per chunk, in order. */
    method EmitChunks(chunks: seq<Bytes>)
      modifies this
      ensures events == old(events) + ChunkEvents(chunks)
      ensures Tts() == old(Tts()) && Asr() == old(Asr())
    {
      for i := 0 to |chunks|
        invariant events == old(events) + ChunkEvents(chunks[..i])
        invariant Tts() == old(Tts()) && Asr() == old(Asr())
      {
        events := events + [TtsChunk(chunks[i])];
        assert ChunkEvents(chunks[..i + 1]) == ChunkEvents(chunks[..i]) + [TtsChunk(chunks[i])];
      }
      assert chunks[..|chunks|] == chunks;
    }

    /** `processTTSQueue`: unless already playing, speak the queued sentences first
        in first out (request `k` getting `speak(k)`), then drop the controller,
        clear the flag and emit one `tts_done`, also when a request threw. */
    method ProcessTTSQueue(speak: nat -> SpeakResponse) returns (thrown: Option<Thrown>)
      modifies this
      ensures old(ttsPlaying) ==> thrown.None? && Tts() == old(Tts()) && events == old(events)
      ensures !old(ttsPlaying) ==>
        var d := Drain(old(ttsQueue), speak, 0, old(events), old(ttsRequests));
        && thrown == d.thrown
        && Tts() == TtsState(false, d.rest, false, d.requests)
        && events == d.events + [TtsDone]
      ensures !old(ttsPlaying) ==>
        && |old(ttsRequests)| <= |ttsRequests|
        && events == old(events) + SpeakAll(speak, 0, |ttsRequests| - |old(ttsRequests)|) + [TtsDone]
      ensures Asr() == old(Asr())
    {
      thrown := None;
      if ttsPlaying {
        return;
      }
      ttsPlaying := true;
      var k := 0;
      while ttsQueue != [] && thrown.None?
        invariant thrown.None? ==>
          Drain(old(ttsQueue), speak, 0, old(events), old(ttsRequests)) == Drain(ttsQueue, speak, k, events, ttsRequests)
        invariant thrown.Some? ==>
          Drain(old(ttsQueue), speak, 0, old(events), old(ttsRequests)) == Drained(events, ttsRequests, ttsQueue, thrown)
        invariant Asr() == old(Asr())
        decreases |ttsQueue|
      {
        var s := ttsQueue[0];
        ttsQueue := ttsQueue[1..];
        if s == [] {
          continue;
        }
        thrown := SpeakSentence(s, speak(k));
        k := k + 1;
      }
      DrainEvents(old(ttsQueue), speak, 0, old(events), old(ttsRequests));
      ttsAbort := false;
      ttsPlaying := false;
      events := events + [TtsDone];
    }

    /** `flushSentenceToTTS` inside `agent_reply`: nothing for a blank sentence;
        otherwise `stopAnyTTS`, a new controller and one request, whose refusal is
        reported as `DG_TTS` and whose completed body ends with `tts_done` and the
        controller dropped. An exception of the request is passed to the caller. */
    method FlushSentenceToTTS(sentence: string, resp: SpeakResponse) returns (thrown: Option<Thrown>)
      modifies this
      ensures events == old(events) + FlushEvents(sentence, resp)
      ensures Trim(sentence) == [] ==> thrown.None? && Tts() == old(Tts())
      ensures Trim(sentence) != [] ==>
        && thrown == ThrownBy(resp)
        && Tts() == TtsState(!(resp.Streamed? && resp.failure.None?), [], false, old(ttsRequests) + [sentence])
      ensures Asr() == old(Asr())
    {
      thrown := None;
      if Trim(sentence) == [] {
        assert events + [] == events;
        return;
      }
      ghost var before := events;
      StopAnyTTS();
      ghost var req := RequestEvents(resp);
      thrown := Request(sentence, resp);
      assert FlushEvents(sentence, resp) == [TtsDone] + req;
      AppendAssoc(before, [TtsDone], req);
    }

    /** The request of a flush: a new controller and the post; a refusal becomes
        `DG_TTS`, and a completed body ends with `tts_done` and drops the controller. */
    method Request(sentence: string, resp: SpeakResponse) returns (thrown: Option<Thrown>)
      modifies this
      ensures thrown == ThrownBy(resp)
      ensures events == old(events) + RequestEvents(resp)
      ensures Tts() == TtsState(!(resp.Streamed? && resp.failure.None?), old(ttsQueue), old(ttsPlaying), old(ttsRequests) + [sentence])
      ensures Asr() == old(Asr())
    {
      ttsAbort := true;
      ttsRequests := ttsRequests + [sentence];
      thrown := None;
      match resp
      case Rejected(e) =>
        thrown := Some(e);
      case NotOk(status) =>
        events := events + [Error(DgTts, HttpMessage(status))];
      case NoBody =>
      case Streamed(chunks, failure) =>
        EmitChunks(chunks);
        if failure.Some? {
          thrown := failure;
        } else {
          events := events + [TtsDone];
          ttsAbort := false;
        }
    }

    /** `start`: finish and close the previous stream, then open a new one in the
        requested language (`en-US` by default), or report `DG_ASR_OPEN` when
        opening throws. Afterwards the new stream is the only one left open. */
    method Start(lang: Option<string>, openOk: bool, openError: string)
      requires Valid()
      modifies this
      ensures Valid()
      ensures asrCalls == old(asrCalls) + Teardown(old(dgLive))
                          + (if openOk then [Open(old(created), lang.GetOr(DefaultLanguage))] else [])
      ensures dgLive == (if openOk then Some(old(created)) else None)
      ensures created == old(created) + (if openOk then 1 else 0)
      ensures Live(asrCalls) == (if openOk then {old(created)} else {})
      ensures events == old(events) + (if openOk then [] else [Error(DgAsrOpen, openError)])
      ensures audioChunkCount == old(audioChunkCount) && firstChunkReceived == old(firstChunkReceived)
      ensures Tts() == old(Tts())
    {
      EndPrevious();
      if openOk {
        OpenNew(lang.GetOr(DefaultLanguage));
      } else {
        events := events + [Error(DgAsrOpen, openError)];
      }
    }

    /** The second step of `start`: a new stream is created and becomes the live one. */
    method OpenNew(language: string)
      requires Valid() && dgLive == None && Live(asrCalls) == {}
      modifies this
      ensures Valid()
      ensures asrCalls == old(asrCalls) + [Open(old(created), language)]
      ensures dgLive == Some(old(created)) && created == old(created) + 1
      ensures Live(asrCalls) == {old(created)}
      ensures events == old(events) && audioChunkCount == old(audioChunkCount) && firstChunkReceived == old(firstChunkReceived)
      ensures Tts() == old(Tts())
    {
      var h := created;
      OpenFresh(asrCalls, h, language);
      asrCalls := asrCalls + [Open(h, language)];
      dgLive := Some(h);
      created := created + 1;
    }

    /** The first step of `start`: the previous stream, if any, is finished and
        closed and forgotten, so that no stream is left open. */
    method EndPrevious()
      requires Valid()
      modifies this
      ensures Valid()
      ensures asrCalls == old(asrCalls) + Teardown(old(dgLive))
      ensures dgLive == None && Live(asrCalls) == {}
      ensures created == old(created) && audioChunkCount == old(audioChunkCount) && firstChunkReceived == old(firstChunkReceived)
      ensures events == old(events) && Tts() == old(Tts())
    {
      if dgLive.Some? {
        var h := dgLive.value;
        CallsSnoc(asrCalls, Finish(h));
        CallsSnoc(asrCalls + [Finish(h)], Close(h));
        asrCalls := asrCalls + [Finish(h)] + [Close(h)];
        dgLive := None;
      }
    }

    /** A transcript from the stream: an empty one is skipped; otherwise a final
        one becomes `asr_final` and an interim one `asr_partial`. */
    method OnTranscript(text: string, isFinal: bool)
      modifies this
      ensures events == old(events) + (if text == [] then [] else if isFinal then [AsrFinal(text)] else [AsrPartial(text)])
      ensures Asr() == old(Asr()) && Tts() == old(Tts())
    {
      if text == [] {
        return;
      }
      if isFinal {
        events := events + [AsrFinal(text)];
      } else {
        events := events + [AsrPartial(text)];
      }
    }

    /** An error from the stream becomes a `DG_ASR` error event. */
    method OnAsrError(message: string)
      modifies this
      ensures events == old(events) + [Error(DgAsr, message)]
      ensures Asr() == old(Asr()) && Tts() == old(Tts())
    {
      events := events + [Error(DgAsr, message)];
    }

    /** `audio_chunk`: ignored without a stream; otherwise sent to the current
        stream, and counted only when the send did not throw. */
    method AudioChunk(buf: Bytes, sendOk: bool)
      requires Valid()
      modifies this
      ensures Valid()
      ensures dgLive == old(dgLive) && created == old(created)
      ensures old(dgLive).None? ==> Asr() == old(Asr())
      ensures old(dgLive).Some? ==>
        && asrCalls == old(asrCalls) + [Send(old(dgLive).value, buf)]
        && audioChunkCount == old(audioChunkCount) + (if sendOk then 1 else 0)
        && firstChunkReceived == (old(firstChunkReceived) || sendOk)
      ensures Live(asrCalls) == Live(old(asrCalls))
      ensures events == old(events) && Tts() == old(Tts())
    {
      if dgLive.None? {
        return;
      }
      CallsSnoc(asrCalls, Send(dgLive.value, buf));
      asrCalls := asrCalls + [Send(dgLive.value, buf)];
      if sendOk {
        audioChunkCount := audioChunkCount + 1;
        firstChunkReceived := true;
      }
    }

    /** `stop_talk`: reset the counters and ask the current stream to finalize. */
    method StopTalk()
      requires Valid()
      modifies this
      ensures Valid()
      ensures audioChunkCount == 0 && !firstChunkReceived
      ensures asrCalls == old(asrCalls) + (if old(dgLive).Some? then [Finalize(old(dgLive).value)] else [])
      ensures dgLive == old(dgLive) && created == old(created)
      ensures Live(asrCalls) == Live(old(asrCalls))
      ensures events == old(events) && Tts() == old(Tts())
    {
      audioChunkCount := 0;
      firstChunkReceived := false;
      if dgLive.Some? {
        CallsSnoc(asrCalls, Finalize(dgLive.value));
        asrCalls := asrCalls + [Finalize(dgLive.value)];
      }
    }

    /** `cancel_tts`. */
    method CancelTts()
      modifies this
      ensures Tts() == TtsState(false, [], false, old(ttsRequests))
      ensures events == old(events) + [TtsDone]
      ensures Asr() == old(Asr())
    {
      StopAnyTTS();
    }

    /** `disconnect`: close the current stream (the reference is kept) and stop
        any synthesis. No stream is left open. */
    method Disconnect()
      requires Valid()
      modifies this
      ensures Valid()
      ensures asrCalls == old(asrCalls) + (if old(dgLive).Some? then [Close(old(dgLive).value)] else [])
      ensures dgLive == old(dgLive) && created == old(created)
      ensures Live(asrCalls) == {}
      ensures audioChunkCount == old(audioChunkCount) && firstChunkReceived == old(firstChunkReceived)
      ensures Tts() == TtsState(false, [], false, old(ttsRequests))
      ensures events == old(events) + [TtsDone]
    {
      if dgLive.Some? {
        CallsSnoc(asrCalls, Close(dgLive.value));
        asrCalls := asrCalls + [Close(dgLive.value)];
      }
      StopAnyTTS();
    }

    /** The `exec` loop over the buffer `s`: one `reply_text` per match, in order,
        each group 1 appended to `spoken` with a space. */
    method CaptionMatches(s: string, spoken: string) returns (spoken': string)
      modifies this
      ensures (spoken', events) == Captioned(s, 0, spoken, old(events))
      ensures Asr() == old(Asr()) && Tts() == old(Tts())
    {
      spoken' := spoken;
      var from := 0;
      var m := Exec(s, from);
      while m.Some?
        invariant from <= |s| && m == Exec(s, from)
        invariant Captioned(s, 0, spoken, old(events)) == Captioned(s, from, spoken', events)
        invariant Asr() == old(Asr()) && Tts() == old(Tts())
        decreases |s| - from
      {
        var sentence := s[m.value.start..m.value.term + 1];
        CaptionedStep(s, from, spoken', events);
        events := events + [ReplyText(sentence)];
        spoken' := spoken' + sentence + " ";
        from := m.value.end;
        m := Exec(s, from);
      }
      CaptionedStep(s, from, spoken', events);
    }

    /** `agent_reply(text)`: nothing for a blank request; otherwise `thinking`,
        the generator's pieces through the sentence splitter, a caption for the
        trimmed tail, and one flush of the whole composed reply, whose `AbortError`
        is swallowed and whose other exceptions become `LLM_STREAM` errors. */
    method AgentReply(text: string, conv: Gemini.Conversation, chunks: seq<string>, failed: bool, resp: SpeakResponse)
      requires conv.Valid()
      modifies this, conv
      ensures conv.Valid()
      ensures events == old(events) + ReplyEvents(text, Gemini.Yielded(chunks, failed), resp)
      ensures Trim(text) == [] ==> conv.turns == old(conv.turns) && Tts() == old(Tts())
      ensures Trim(text) != [] ==>
        conv.turns == Gemini.TrimHistory(old(conv.turns) + [Gemini.Turn(Gemini.User, text)])
                      + (if failed then [] else [Gemini.Turn(Gemini.Model, Concat(chunks))])
      ensures Trim(text) != [] && Trim(Spoken(Gemini.Yielded(chunks, failed))) != [] ==>
        Tts() == TtsState(!(resp.Streamed? && resp.failure.None?), [], false,
                          old(ttsRequests) + [Trim(Spoken(Gemini.Yielded(chunks, failed)))])
      ensures Trim(text) != [] && Trim(Spoken(Gemini.Yielded(chunks, failed))) == [] ==>
        Tts() == old(Tts())
      ensures Asr() == old(Asr())
    {
      if Trim(text) == [] {
        return;
      }
      events := events + [Thinking];
      var pieces := conv.StreamReply(text, chunks, failed);
      assert Asr() == old(Asr()) && Tts() == old(Tts());
      var spoken := CaptionReply(pieces);
      assert Asr() == old(Asr()) && Tts() == old(Tts());
      SpeakReply(spoken, resp);
      AppendAssoc(old(events), [Thinking], CaptionEvents(Captions(pieces)));
      AppendAssoc(old(events), [Thinking] + CaptionEvents(Captions(pieces)), SpeechEvents(Trim(spoken), resp));
    }

    /** The captions of one reply: each streamed sentence, then the trimmed tail
        of the buffer when it is not blank. Returns the composed text. */
    method CaptionReply(pieces: seq<string>) returns (spoken: string)
      modifies this
      ensures spoken == Spoken(pieces)
      ensures events == old(events) + CaptionEvents(Captions(pieces))
      ensures Asr() == old(Asr()) && Tts() == old(Tts())
    {
      var buffer;
      buffer, spoken := StreamCaptions(pieces);
      ghost var sents := Segments(pieces).0;
      var tail := CaptionTail(buffer);
      spoken := spoken + tail;
      CaptionEventsConcat(sents, Tail(buffer));
      AppendAssoc(old(events), CaptionEvents(sents), CaptionEvents(Tail(buffer)));
    }

    /** After the loop: the trimmed rest of the buffer is captioned unless blank. */
    method CaptionTail(buffer: string) returns (tail: string)
      modifies this
      ensures tail == Trim(buffer)
      ensures events == old(events) + CaptionEvents(Tail(buffer))
      ensures Asr() == old(Asr()) && Tts() == old(Tts())
    {
      tail := Trim(buffer);
      if tail != [] {
        events := events + [ReplyText(tail)];
        assert CaptionEvents(Tail(buffer)) == [ReplyText(tail)];
      } else {
        assert events + CaptionEvents(Tail(buffer)) == events;
      }
    }

    /** The composed reply trimmed and, unless that leaves nothing, spoken in one
        flush, with the handler's `catch`: an `AbortError` is swallowed and any other
        exception becomes an `LLM_STREAM` error. */
    method SpeakReply(spoken: string, resp: SpeakResponse)
      modifies this
      ensures events == old(events) + SpeechEvents(Trim(spoken), resp)
      ensures Trim(spoken) != [] ==>
        Tts() == TtsState(!(resp.Streamed? && resp.failure.None?), [], false, old(ttsRequests) + [Trim(spoken)])
      ensures Trim(spoken) == [] ==> Tts() == old(Tts())
      ensures Asr() == old(Asr())
    {
      var toSpeak := Trim(spoken);
      if toSpeak != [] {
        TrimIdempotent(spoken);
        SpeakCaught(toSpeak, resp);
        AppendAssoc(old(events), FlushEvents(toSpeak, resp), CatchEvents(ThrownBy(resp)));
      } else {
        assert events + [] == events;
      }
    }

    /** The flush of a non-blank reply inside the handler's `try`. */
    method SpeakCaught(toSpeak: string, resp: SpeakResponse)
      requires Trim(toSpeak) != []
      modifies this
      ensures events == old(events) + FlushEvents(toSpeak, resp) + CatchEvents(ThrownBy(resp))
      ensures Tts() == TtsState(!(resp.Streamed? && resp.failure.None?), [], false, old(ttsRequests) + [toSpeak])
      ensures Asr() == old(Asr())
    {
      var thrown := FlushSentenceToTTS(toSpeak, resp);
      if thrown.Some? && thrown.value.Failure? {
        events := events + [Error(LlmStream, thrown.value.message)];
      } else {
        assert events + CatchEvents(thrown) == events;
      }
    }

    /** The `for await` over the generator: each piece appended to the buffer, its
        sentences captioned, and the matched spans deleted from the buffer. */
    method StreamCaptions(pieces: seq<string>) returns (buffer: string, spoken: string)
      modifies this
      ensures buffer == Segments(pieces).1
      ensures spoken == Spaced(Segments(pieces).0)
      ensures events == old(events) + CaptionEvents(Segments(pieces).0)
      ensures Asr() == old(Asr()) && Tts() == old(Tts())
    {
      buffer := "";
      spoken := "";
      for i := 0 to |pieces|
        invariant buffer == Segments(pieces[..i]).1
        invariant spoken == Spaced(Segments(pieces[..i]).0)
        invariant events == old(events) + CaptionEvents(Segments(pieces[..i]).0)
        invariant Asr() == old(Asr()) && Tts() == old(Tts())
      {
        ghost var sents := Segments(pieces[..i]).0;
        ghost var before := events;
        buffer := buffer + pieces[i];
        ghost var found := Sentences(Layout(buffer, 0));
        spoken := CaptionMatches(buffer, spoken);
        CaptionedSentences(buffer, 0, Spaced(sents), before);
        SpacedConcat(sents, found);
        CaptionEventsConcat(sents, found);
        AppendAssoc(old(events), CaptionEvents(sents), CaptionEvents(found));
        SegmentsSnoc(pieces[..i], pieces[i]);
        assert pieces[..i + 1] == pieces[..i] + [pieces[i]];
        buffer := Replace(buffer);
      }
      assert pieces[..|pieces|] == pieces;
    }
  }
}
