/**
 * What `agent_reply` makes of a generated reply: captions for each sentence as
 * the splitter finds it and for the trimmed tail, and one synthesis request for
 * the whole reply (the code speaks the composed text once, after generation).
 */
module Reply {
  import opened Wrappers
  import opened Strings
  import opened Protocol
  import opened Segmenter
  import opened Speech

  /** `spoken` after the loop: each emitted sentence followed by one space. */
  function Spaced(sents: seq<string>): string {
    if sents == [] then [] else sents[0] + " " + Spaced(sents[1..])
  }

  lemma {:induction false} SpacedConcat(a: seq<string>, b: seq<string>)
    ensures Spaced(a + b) == Spaced(a) + Spaced(b)
    decreases |a|
  {
    if a == [] {
      assert a + b == b;
    } else {
      assert (a + b)[1..] == a[1..] + b;
      SpacedConcat(a[1..], b);
      assert a[0] + " " + (Spaced(a[1..]) + Spaced(b)) == a[0] + " " + Spaced(a[1..]) + Spaced(b);
    }
  }

  /** The final `reply_text`, present when the pending buffer is not blank. */
  function Tail(buffer: string): seq<string> {
    if Trim(buffer) != [] then [Trim(buffer)] else []
  }

  /** Every caption of the reply, in emission order. */
  function Captions(pieces: seq<string>): seq<string> {
    Segments(pieces).0 + Tail(Segments(pieces).1)
  }

  /** The composed reply: the loop's sentences with a space after each, then the
      trimmed tail (adding a blank tail or none is the same). */
  function Spoken(pieces: seq<string>): string {
    Spaced(Segments(pieces).0) + Trim(Segments(pieces).1)
  }

  function CaptionEvents(texts: seq<string>): (evs: seq<ServerEvent>)
    ensures |evs| == |texts| && forall i :: 0 <= i < |texts| ==> evs[i] == ReplyText(texts[i])
  {
    seq(|texts|, i requires 0 <= i < |texts| => ReplyText(texts[i]))
  }

  lemma CaptionEventsConcat(a: seq<string>, b: seq<string>)
    ensures CaptionEvents(a + b) == CaptionEvents(a) + CaptionEvents(b)
  {
  }

  /** The `exec` loop over the buffer `s` from `from` on: each match's group 1 is
      captioned and appended to `spoken` with a space, and scanning resumes at the
      end of the match. */
  function Captioned(s: string, from: nat, spoken: string, evs: seq<ServerEvent>): (string, seq<ServerEvent>)
    requires from <= |s|
    decreases |s| - from
  {
    match Exec(s, from)
    case None => (spoken, evs)
    case Some(m) =>
      var t := s[m.start..m.term + 1];
      Captioned(s, m.end, spoken + t + " ", evs + [ReplyText(t)])
  }

  lemma CaptionedStep(s: string, from: nat, spoken: string, evs: seq<ServerEvent>)
    requires from <= |s|
    ensures Exec(s, from).None? ==> Captioned(s, from, spoken, evs) == (spoken, evs)
    ensures Exec(s, from).Some? ==>
      var m := Exec(s, from).value;
      var t := s[m.start..m.term + 1];
      Captioned(s, from, spoken, evs) == Captioned(s, m.end, spoken + t + " ", evs + [ReplyText(t)])
  {
  }

  /** The loop captions exactly the sentences of the layout, in order, and speaks
      each of them followed by a space. */
  lemma CaptionedSentences(s: string, from: nat, spoken: string, evs: seq<ServerEvent>)
    requires from <= |s|
    ensures Captioned(s, from, spoken, evs)
         == (spoken + Spaced(Sentences(Layout(s, from))), evs + CaptionEvents(Sentences(Layout(s, from))))
  {
    CaptionedSpoken(s, from, spoken, evs);
    CaptionedEvents(s, from, spoken, evs);
  }

  lemma {:induction false} CaptionedSpoken(s: string, from: nat, spoken: string, evs: seq<ServerEvent>)
    requires from <= |s|
    ensures Captioned(s, from, spoken, evs).0 == spoken + Spaced(Sentences(Layout(s, from)))
    decreases |s| - from
  {
    CaptionedStep(s, from, spoken, evs);
    SpacedStep(s, from);
    if Exec(s, from).None? {
      assert spoken + [] == spoken;
    } else {
      var m := Exec(s, from).value;
      var t := s[m.start..m.term + 1];
      var l := Spaced(Sentences(Layout(s, m.end)));
      var sp := spoken + t + " ";
      CaptionedSpoken(s, m.end, sp, evs + [ReplyText(t)]);
      SpokenAssoc(spoken, t, l);
    }
  }

  lemma {:induction false} CaptionedEvents(s: string, from: nat, spoken: string, evs: seq<ServerEvent>)
    requires from <= |s|
    ensures Captioned(s, from, spoken, evs).1 == evs + CaptionEvents(Sentences(Layout(s, from)))
    decreases |s| - from
  {
    CaptionedStep(s, from, spoken, evs);
    CaptionEventsStep(s, from);
    if Exec(s, from).None? {
      assert evs + [] == evs;
    } else {
      var m := Exec(s, from).value;
      var t := s[m.start..m.term + 1];
      var c := CaptionEvents(Sentences(Layout(s, m.end)));
      CaptionedEvents(s, m.end, spoken + t + " ", evs + [ReplyText(t)]);
      AppendAssoc(evs, [ReplyText(t)], c);
    }
  }

  lemma SpokenAssoc(spoken: string, t: string, l: string)
    ensures spoken + t + " " + l == spoken + (t + " " + l)
  {
  }

  lemma SpacedStep(s: string, from: nat)
    requires from <= |s|
    ensures Exec(s, from).None? ==> Spaced(Sentences(Layout(s, from))) == []
    ensures Exec(s, from).Some? ==>
      var m := Exec(s, from).value;
      Spaced(Sentences(Layout(s, from))) == s[m.start..m.term + 1] + " " + Spaced(Sentences(Layout(s, m.end)))
  {
    SentencesStep(s, from);
    if Exec(s, from).Some? {
      var m := Exec(s, from).value;
      assert ([s[m.start..m.term + 1]] + Sentences(Layout(s, m.end)))[1..] == Sentences(Layout(s, m.end));
    }
  }

  lemma CaptionEventsStep(s: string, from: nat)
    requires from <= |s|
    ensures Exec(s, from).None? ==> CaptionEvents(Sentences(Layout(s, from))) == []
    ensures Exec(s, from).Some? ==>
      var m := Exec(s, from).value;
      CaptionEvents(Sentences(Layout(s, from)))
        == [ReplyText(s[m.start..m.term + 1])] + CaptionEvents(Sentences(Layout(s, m.end)))
  {
    SentencesStep(s, from);
    if Exec(s, from).Some? {
      var m := Exec(s, from).value;
      var t, rest := s[m.start..m.term + 1], Sentences(Layout(s, m.end));
      assert Sentences(Layout(s, from)) == [t] + rest;
      CaptionEventsConcat([t], rest);
      assert CaptionEvents([t]) == [ReplyText(t)];
    }
  }

  /** The `error` the handler's `catch` emits: none for an abort (barge-in). */
  function CatchEvents(thrown: Option<Thrown>): seq<ServerEvent> {
    match thrown
    case Some(Failure(message)) => [Error(LlmStream, message)]
    case _ => []
  }

  /** Every event of `agent_reply(text)` when the generator yields `pieces` and the
      speak request comes back with `resp`. */
  function ReplyEvents(text: string, pieces: seq<string>, resp: SpeakResponse): seq<ServerEvent> {
    if Trim(text) == [] then []
    else
      var toSpeak := Trim(Spoken(pieces));
      [Thinking] + CaptionEvents(Captions(pieces))
      + SpeechEvents(toSpeak, resp)
  }

  /** The events of the single speak call for the composed text and its `catch`. */
  function SpeechEvents(toSpeak: string, resp: SpeakResponse): seq<ServerEvent> {
    if toSpeak == [] then [] else FlushEvents(toSpeak, resp) + CatchEvents(ThrownBy(resp))
  }

  lemma SpeechHasNoCaptions(toSpeak: string, resp: SpeakResponse)
    ensures forall e :: e in SpeechEvents(toSpeak, resp) ==> !e.ReplyText? && !e.Thinking?
  {
    if toSpeak != [] {
      FlushHasNoCaptions(toSpeak, resp);
    }
  }

  /** The texts of the `reply_text` events among `evs`, in order. */
  function CaptionsIn(evs: seq<ServerEvent>): seq<string>
    decreases |evs|
  {
    if evs == [] then []
    else CaptionsIn(evs[..|evs| - 1]) + (if evs[|evs| - 1].ReplyText? then [evs[|evs| - 1].text] else [])
  }

  lemma {:induction false} CaptionsInConcat(a: seq<ServerEvent>, b: seq<ServerEvent>)
    ensures CaptionsIn(a + b) == CaptionsIn(a) + CaptionsIn(b)
    decreases |b|
  {
    if b == [] {
      assert a + b == a;
    } else {
      CaptionsInConcat(a, b[..|b| - 1]);
      assert (a + b)[..|a + b| - 1] == a + b[..|b| - 1];
      assert (a + b)[|a + b| - 1] == b[|b| - 1];
    }
  }

  lemma {:induction false} CaptionsOfCaptionEvents(texts: seq<string>)
    ensures CaptionsIn(CaptionEvents(texts)) == texts
    decreases |texts|
  {
    if texts != [] {
      var init := texts[..|texts| - 1];
      CaptionsOfCaptionEvents(init);
      assert CaptionEvents(texts)[..|texts| - 1] == CaptionEvents(init);
    }
  }

  lemma {:induction false} NoCaptionsIn(evs: seq<ServerEvent>)
    requires forall e :: e in evs ==> !e.ReplyText?
    ensures CaptionsIn(evs) == []
    decreases |evs|
  {
    if evs != [] {
      NoCaptionsIn(evs[..|evs| - 1]);
    }
  }

  /** A blank request emits nothing. A real one emits `thinking` first and only
      once; the captions the client sees are exactly the sentences the splitter
      emitted followed by the tail, and every one is non-blank. */
  lemma ReplyCaptions(text: string, pieces: seq<string>, resp: SpeakResponse)
    ensures Trim(text) == [] ==> ReplyEvents(text, pieces, resp) == []
    ensures Trim(text) != [] ==>
      var evs := ReplyEvents(text, pieces, resp);
      && evs[0] == Thinking
      && (forall i :: 0 < i < |evs| ==> evs[i] != Thinking)
      && CaptionsIn(evs) == Captions(pieces)
    ensures forall t :: t in Captions(pieces) ==> Trim(t) != []
  {
    if Trim(text) != [] {
      ReplyOrder(text, pieces, resp);
    }
    CaptionsNotBlank(pieces);
  }

  lemma ReplyOrder(text: string, pieces: seq<string>, resp: SpeakResponse)
    requires Trim(text) != []
    ensures var evs := ReplyEvents(text, pieces, resp);
      && evs[0] == Thinking
      && (forall i :: 0 < i < |evs| ==> evs[i] != Thinking)
      && CaptionsIn(evs) == Captions(pieces)
  {
    var toSpeak := Trim(Spoken(pieces));
    SpeechHasNoCaptions(toSpeak, resp);
    CaptionOrder(Captions(pieces), SpeechEvents(toSpeak, resp));
  }

  /** `thinking`, then the captions, then speech events that carry no caption. */
  lemma CaptionOrder(caps: seq<string>, speech: seq<ServerEvent>)
    requires forall e :: e in speech ==> !e.ReplyText? && !e.Thinking?
    ensures var evs := [Thinking] + CaptionEvents(caps) + speech;
      && evs[0] == Thinking
      && (forall i :: 0 < i < |evs| ==> evs[i] != Thinking)
      && CaptionsIn(evs) == caps
  {
    var evs := [Thinking] + CaptionEvents(caps) + speech;
    NoCaptionsIn(speech);
    CaptionsOfCaptionEvents(caps);
    CaptionsInConcat([Thinking], CaptionEvents(caps));
    CaptionsInConcat([Thinking] + CaptionEvents(caps), speech);
    assert CaptionsIn([Thinking]) == CaptionsIn([]) + [];
    forall i | 0 < i < |evs| ensures evs[i] != Thinking {
      if i > |caps| { assert evs[i] == speech[i - 1 - |caps|]; }
    }
  }

  lemma CaptionsNotBlank(pieces: seq<string>)
    ensures forall t :: t in Captions(pieces) ==> Trim(t) != []
  {
    SegmentsAreSentences(pieces);
    var (sents, buffer) := Segments(pieces);
    CaptionsOfSentences(sents, buffer);
  }

  lemma CaptionsOfSentences(sents: seq<string>, buffer: string)
    requires forall t :: t in sents ==> IsSentence(t)
    ensures forall t :: t in sents + Tail(buffer) ==> Trim(t) != []
  {
    forall t | t in sents ensures Trim(t) != [] {
      SentenceNotBlank(t);
    }
    TailNotBlank(buffer);
  }

  lemma TailNotBlank(buffer: string)
    ensures forall t :: t in Tail(buffer) ==> Trim(t) != []
  {
    var r := Trim(buffer);
    if r != [] {
      TrimIdempotent(buffer);
      assert Tail(buffer) == [r];
    }
  }

  lemma {:induction false} SpacedBlankIff(sents: seq<string>)
    requires forall t :: t in sents ==> IsSentence(t)
    ensures AllWs(Spaced(sents)) <==> sents == []
    decreases |sents|
  {
    if sents != [] {
      var first, rest := sents[0], sents[1..];
      SpacedBlankIff(rest);
      AllWsConcat(first + " ", Spaced(rest));
      AllWsConcat(first, " ");
      assert first in sents;
      assert forall t :: t in rest ==> t in sents;
      assert !IsWs(first[|first| - 1]);
    }
  }

  /** The reply is spoken exactly when there is something to caption: the
      composed text is non-blank iff a sentence or a non-blank tail was emitted. */
  lemma SpokenIffCaptions(pieces: seq<string>)
    ensures Trim(Spoken(pieces)) != [] <==> Captions(pieces) != []
  {
    var (sents, buffer) := Segments(pieces);
    SegmentsAreSentences(pieces);
    SpacedBlankIff(sents);
    AllWsConcat(Spaced(sents), Trim(buffer));
  }
}
