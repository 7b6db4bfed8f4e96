/**
 * The synthesizer side of a session: what one request to the speak endpoint
 * can come back with, and the events that `flushSentenceToTTS` and
 * `processTTSQueue` emit for it. The HTTP exchange is an input.
 */
module Speech {
  import opened Wrappers
  import opened Strings
  import opened Protocol

  /** An exception leaving the `fetch` or the body stream: the abort of the
      request's controller, or any other failure with its message. */
  datatype Thrown = AbortError | Failure(message: string)

  /** The outcome of one `fetch` to the speak endpoint. */
  datatype SpeakResponse =
    | Rejected(error: Thrown)                              // the fetch itself rejected
    | NotOk(status: nat)                                   // `res.ok` is false
    | NoBody                                               // ok, but `res.body` is null
    | Streamed(chunks: seq<Bytes>, failure: Option<Thrown>) // the body's chunks, then possibly an exception

  /** The exception the request raises in its caller, if any. */
  function ThrownBy(resp: SpeakResponse): Option<Thrown> {
    match resp
    case Rejected(e) => Some(e)
    case Streamed(_, e) => e
    case _ => None
  }

  function ChunkEvents(chunks: seq<Bytes>): (evs: seq<ServerEvent>)
    ensures |evs| == |chunks| && forall i :: 0 <= i < |chunks| ==> evs[i] == TtsChunk(chunks[i])
  {
    seq(|chunks|, i requires 0 <= i < |chunks| => TtsChunk(chunks[i]))
  }

  /** The `tts_chunk` events a request produces before it completes or throws. */
  function SpeakEvents(resp: SpeakResponse): seq<ServerEvent> {
    if resp.Streamed? then ChunkEvents(resp.chunks) else []
  }

  /** `HTTP <status>`: the message of a `DG_TTS` error. */
  function HttpMessage(status: nat): string {
    "HTTP " + DecimalString(status)
  }

  /** Events of `flushSentenceToTTS(sentence)` for the given response: nothing for a
      blank sentence; otherwise the `tts_done` of `stopAnyTTS`, then the events of
      the request. */
  function FlushEvents(sentence: string, resp: SpeakResponse): seq<ServerEvent> {
    if Trim(sentence) == [] then [] else [TtsDone] + RequestEvents(resp)
  }

  /** The events of the flush's request: the `DG_TTS` error for a refusal, or the
      chunks and — when the body completed — a closing `tts_done`. */
  function RequestEvents(resp: SpeakResponse): seq<ServerEvent> {
    match resp
    case Rejected(_) => []
    case NotOk(status) => [Error(DgTts, HttpMessage(status))]
    case NoBody => []
    case Streamed(chunks, failure) => ChunkEvents(chunks) + (if failure.None? then [TtsDone] else [])
  }

  /** What a flush emits, case by case: it always opens with one `tts_done` from
      `stopAnyTTS`; a refused request emits `DG_TTS` and no audio; a completed body
      emits its chunks in order and one more `tts_done`. */
  lemma FlushOutcomes(sentence: string, resp: SpeakResponse)
    requires Trim(sentence) != []
    ensures var evs := FlushEvents(sentence, resp);
      && evs[0] == TtsDone
      && (resp.NotOk? ==> evs == [TtsDone, Error(DgTts, HttpMessage(resp.status))])
      && (resp.NotOk? ==> forall e :: e in evs ==> !e.TtsChunk?)
      && (resp.Streamed? && resp.failure.None? ==>
            |evs| == |resp.chunks| + 2 && evs[|evs| - 1] == TtsDone
            && forall i :: 0 <= i < |resp.chunks| ==> evs[i + 1] == TtsChunk(resp.chunks[i]))
  {
  }

  /** A flush emits no caption and no `thinking`. */
  lemma FlushHasNoCaptions(sentence: string, resp: SpeakResponse)
    ensures forall e :: e in FlushEvents(sentence, resp) ==> !e.ReplyText? && !e.Thinking?
  {
    if Trim(sentence) != [] {
      RequestHasNoCaptions(resp);
      assert FlushEvents(sentence, resp) == [TtsDone] + RequestEvents(resp);
    }
  }

  lemma RequestHasNoCaptions(resp: SpeakResponse)
    ensures forall e :: e in RequestEvents(resp) ==> !e.ReplyText? && !e.Thinking?
  {
    match resp
    case Streamed(chunks, failure) =>
      var cs := ChunkEvents(chunks);
      assert forall e :: e in cs ==> e.TtsChunk?;
      assert RequestEvents(resp) == cs + (if failure.None? then [TtsDone] else []);
    case _ =>
  }

  /** The result of running `processTTSQueue`'s loop over a queue: the chunk events,
      the texts posted to the endpoint, what is left in the queue, and the exception
      that ended the loop early, if one did. */
  datatype Drained = Drained(events: seq<ServerEvent>, requests: seq<string>, rest: seq<string>, thrown: Option<Thrown>)

  /** The loop over `queue`, the `k`-th request getting `speak(k)`, after `events`
      were emitted and `requests` posted: empty strings are shifted off and skipped,
      others spoken in order, and an exception from a request stops the loop with
      the remaining entries still queued. */
  function Drain(queue: seq<string>, speak: nat -> SpeakResponse, k: nat, events: seq<ServerEvent>, requests: seq<string>): Drained
    decreases |queue|
  {
    if queue == [] then Drained(events, requests, [], None)
    else if queue[0] == [] then Drain(queue[1..], speak, k, events, requests)
    else
      var resp := speak(k);
      if ThrownBy(resp).Some? then Drained(events + SpeakEvents(resp), requests + [queue[0]], queue[1..], ThrownBy(resp))
      else Drain(queue[1..], speak, k + 1, events + SpeakEvents(resp), requests + [queue[0]])
  }

  lemma DrainCons(x: string, tl: seq<string>, n: nat, requests: seq<string>, requests': seq<string>, result: seq<string>)
    requires n <= |tl|
    requires requests' == requests + (if x == [] then [] else [x])
    requires result == requests' + NonEmpty(tl[..n])
    ensures result == requests + NonEmpty(([x] + tl)[..n + 1])
  {
    NonEmptyCons(x, tl[..n]);
    SliceCons(x, tl, n);
  }

  /** One step of `DrainFifo`: what holds of the loop over the rest of the queue
      after its head was shifted off holds of the whole queue with one more entry
      consumed. */
  lemma DrainFifoNext(queue: seq<string>, n: nat, d: Drained, requests: seq<string>, requests': seq<string>)
    requires queue != [] && n <= |queue| - 1
    requires d.rest == queue[1..][n..] && d.requests == requests' + NonEmpty(queue[1..][..n])
    requires requests' == requests + (if queue[0] == [] then [] else [queue[0]])
    requires d.thrown.None? ==> d.rest == [] && d.requests == requests' + NonEmpty(queue[1..])
    ensures d.rest == queue[n + 1..] && d.requests == requests + NonEmpty(queue[..n + 1])
    ensures d.thrown.None? ==> d.rest == [] && d.requests == requests + NonEmpty(queue)
  {
    var x, tl := queue[0], queue[1..];
    assert queue == [x] + tl;
    DrainCons(x, tl, n, requests, requests', d.requests);
    SliceCons(x, tl, n);
    if d.thrown.None? {
      NonEmptyCons(x, tl);
      AppendAssoc(requests, if x == [] then [] else [x], NonEmpty(tl));
    }
  }

  /** The step of `DrainFifo` where the head's request throws. */
  lemma DrainFifoStop(queue: seq<string>, requests: seq<string>)
    requires queue != [] && queue[0] != []
    ensures requests + [queue[0]] == requests + NonEmpty(queue[..1])
  {
    NonEmptyCons(queue[0], []);
    assert queue[..1] == [queue[0]] + [];
  }

  /** First in, first out: the texts spoken are the non-empty entries of the queue
      in their order, all of them unless a request threw; what stays queued is the
      untouched end of the queue, and nothing stays when no request threw. Earlier
      requests are kept in front. */
  lemma {:induction false} DrainFifo(queue: seq<string>, speak: nat -> SpeakResponse, k: nat, events: seq<ServerEvent>, requests: seq<string>)
    ensures var d := Drain(queue, speak, k, events, requests);
      && (exists n :: 0 <= n <= |queue| && d.rest == queue[n..] && d.requests == requests + NonEmpty(queue[..n]))
      && (d.thrown.None? ==> d.rest == [] && d.requests == requests + NonEmpty(queue))
    decreases |queue|
  {
    var d := Drain(queue, speak, k, events, requests);
    if queue == [] {
      assert d.rest == queue[0..] && d.requests == requests + NonEmpty(queue[..0]);
    } else {
      var x, tl := queue[0], queue[1..];
      var resp := speak(k);
      if x == [] || ThrownBy(resp).None? {
        var k', events', requests' :=
          if x == [] then k else k + 1,
          if x == [] then events else events + SpeakEvents(resp),
          if x == [] then requests else requests + [x];
        assert d == Drain(tl, speak, k', events', requests');
        DrainFifo(tl, speak, k', events', requests');
        var n' :| 0 <= n' <= |tl| && d.rest == tl[n'..] && d.requests == requests' + NonEmpty(tl[..n']);
        DrainFifoNext(queue, n', d, requests, requests');
        assert 0 <= n' + 1 <= |queue| && d.rest == queue[n' + 1..] && d.requests == requests + NonEmpty(queue[..n' + 1]);
      } else {
        assert d.requests == requests + [x] && d.rest == queue[1..];
        DrainFifoStop(queue, requests);
        assert 0 <= 1 <= |queue| && d.rest == queue[1..] && d.requests == requests + NonEmpty(queue[..1]);
      }
    }
  }

  /** The chunk events of `n` requests posted in a row, the first getting `speak(k)`. */
  function SpeakAll(speak: nat -> SpeakResponse, k: nat, n: nat): seq<ServerEvent>
    decreases n
  {
    if n == 0 then [] else SpeakEvents(speak(k)) + SpeakAll(speak, k + 1, n - 1)
  }

  /** The requests of the queue loop emit only `tts_chunk` events. */
  lemma {:induction false} SpeakAllChunks(speak: nat -> SpeakResponse, k: nat, n: nat)
    ensures forall e :: e in SpeakAll(speak, k, n) ==> e.TtsChunk?
    decreases n
  {
    if n > 0 {
      SpeakAllChunks(speak, k + 1, n - 1);
      assert forall e :: e in SpeakEvents(speak(k)) ==> e.TtsChunk?;
    }
  }

  /** The queue loop emits, after what was emitted before it, exactly the chunk
      events of the requests it posted, in the order it posted them. */
  lemma {:induction false} DrainEvents(queue: seq<string>, speak: nat -> SpeakResponse, k: nat, events: seq<ServerEvent>, requests: seq<string>)
    ensures var d := Drain(queue, speak, k, events, requests);
      && |requests| <= |d.requests|
      && d.events == events + SpeakAll(speak, k, |d.requests| - |requests|)
    decreases |queue|
  {
    var d := Drain(queue, speak, k, events, requests);
    if queue == [] {
      assert events + [] == events;
    } else if queue[0] == [] {
      DrainEvents(queue[1..], speak, k, events, requests);
    } else {
      var resp := speak(k);
      var e := SpeakEvents(resp);
      if ThrownBy(resp).Some? {
        assert SpeakAll(speak, k, 1) == e + SpeakAll(speak, k + 1, 0);
        assert e + [] == e;
      } else {
        var requests' := requests + [queue[0]];
        assert d == Drain(queue[1..], speak, k + 1, events + e, requests');
        DrainEvents(queue[1..], speak, k + 1, events + e, requests');
        var n := |d.requests| - |requests|;
        assert SpeakAll(speak, k, n) == e + SpeakAll(speak, k + 1, n - 1);
        AppendAssoc(events, e, SpeakAll(speak, k + 1, n - 1));
      }
    }
  }
}
