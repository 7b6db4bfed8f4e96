/**
 * The generator side of the server: the module-level conversation history and
 * `streamGeminiReply`. The remote `generateContentStream` call is an input: the
 * texts of the chunks it delivered, and whether it then failed (a failure of
 * the call itself is a failure after no chunk).
 */
module Gemini {
  import opened Strings

  datatype Role = User | Model

  /** One entry of `contents`: a role and its single text part. */
  datatype Turn = Turn(role: Role, text: string)

  const SystemPrompt: string :=
    "You are a helpful and friendly voice assistant. Your responses should be:\n"
    + "- Natural and conversational in tone\n"
    + "- Concise and to-the-point (aim for 1-3 sentences when possible)\n"
    + "- Formatted for speech (avoid special characters, URLs, or markdown)\n"
    + "- Engaging but professional\n"
    + "- Helpful while being direct\n"
    + "\n"
    + "If you don't know something, say so clearly and briefly.\n"
    + "If you need clarification, ask a short, specific question.\n"
    + "Always maintain a helpful and positive demeanor."

  /** The first entry of the history, sent with the model's role. */
  const SystemTurn: Turn := Turn(Model, SystemPrompt)

  /** The history is cut back once it holds more than this many entries. */
  const MaxTurns: nat := 10

  /** What the reply stream yields in place of a failed generation. */
  const Fallback: string := "I apologize, but I'm having trouble processing that right now. Could you try again?"

  /** The history after the bound is applied: unchanged up to `MaxTurns` entries,
      otherwise its first entry followed by its `MaxTurns - 1` newest entries. */
  function TrimHistory(h: seq<Turn>): (r: seq<Turn>)
    ensures |h| <= MaxTurns ==> r == h
    ensures |h| > MaxTurns ==> |r| == MaxTurns
    ensures |h| > 0 ==> |r| > 0 && r[0] == h[0] && r[|r| - 1] == h[|h| - 1]
    ensures forall k :: 1 <= k < |r| ==> r[k] == h[|h| - |r| + k]
  {
    if |h| > MaxTurns then
      var newest := h[|h| - (MaxTurns - 1)..];
      var r := [h[0]] + newest;
      assert forall k :: 1 <= k < |r| ==> r[k] == newest[k - 1];
      r
    else h
  }

  /** Every text the stream yields: the non-empty chunks, then the fallback if it failed. */
  function Yielded(chunks: seq<string>, failed: bool): seq<string> {
    NonEmpty(chunks) + (if failed then [Fallback] else [])
  }

  /** The fallback comes exactly once, last, after every chunk yielded before the failure. */
  lemma FallbackLast(chunks: seq<string>)
    ensures var y := Yielded(chunks, true);
      |y| == |NonEmpty(chunks)| + 1 && y[|y| - 1] == Fallback && y[..|y| - 1] == NonEmpty(chunks)
  {
  }

  /** The shared conversation of the server process. */
  class Conversation {
    var turns: seq<Turn>

    /** The system entry stays first; between replies at most `MaxTurns + 1` entries are held. */
    ghost predicate Valid()
      reads this
    {
      1 <= |turns| <= MaxTurns + 1 && turns[0] == SystemTurn
    }

    constructor ()
      ensures Valid() && turns == [SystemTurn]
    {
      turns := [SystemTurn];
    }

    /** `streamGeminiReply(userText)` run to completion: the user turn is added and
        the bound applied before the request; the model turn holding everything
        yielded is added only when the stream completed. */
    method StreamReply(userText: string, chunks: seq<string>, failed: bool) returns (yielded: seq<string>)
      requires Valid()
      modifies this
      ensures Valid()
      ensures yielded == Yielded(chunks, failed)
      ensures turns == TrimHistory(old(turns) + [Turn(User, userText)])
                       + (if failed then [] else [Turn(Model, Concat(chunks))])
    {
      PushUser(userText);
      var responseText;
      yielded, responseText := Collect(chunks);
      if failed {
        yielded := yielded + [Fallback];
      } else {
        turns := turns + [Turn(Model, responseText)];
      }
    }

    /** The user turn pushed and the bound applied. */
    method PushUser(userText: string)
      requires Valid()
      modifies this
      ensures turns == TrimHistory(old(turns) + [Turn(User, userText)])
      ensures 2 <= |turns| <= MaxTurns && turns[0] == SystemTurn
    {
      TrimAfterUser(turns, Turn(User, userText));
      turns := turns + [Turn(User, userText)];
      if |turns| > MaxTurns {
        turns := [turns[0]] + turns[|turns| - (MaxTurns - 1)..];
      }
    }
  }

  /** The `for await` over the stream: each non-empty chunk is yielded and added
      to the response text. */
  method Collect(chunks: seq<string>) returns (yielded: seq<string>, responseText: string)
    ensures yielded == NonEmpty(chunks)
    ensures responseText == Concat(chunks)
  {
    responseText := "";
    yielded := [];
    for i := 0 to |chunks|
      invariant yielded == NonEmpty(chunks[..i])
      invariant responseText == Concat(yielded)
    {
      var t := chunks[i];
      if t != [] {
        responseText := responseText + t;
        yielded := yielded + [t];
        assert yielded[..|yielded| - 1] == NonEmpty(chunks[..i]);
      }
      assert chunks[..i + 1][..i] == chunks[..i];
    }
    assert chunks[..|chunks|] == chunks;
    NonEmptyConcat(chunks);
  }

  /** Applying the bound only ever shortens the history to `MaxTurns` and keeps
      the system entry; a history that is `Valid` and grows by one user turn stays
      within `MaxTurns` entries once the bound is applied. */
  lemma {:induction false} TrimAfterUser(h: seq<Turn>, user: Turn)
    requires 1 <= |h| <= MaxTurns + 1 && h[0] == SystemTurn
    ensures var r := TrimHistory(h + [user]);
      && 2 <= |r| <= MaxTurns
      && r[0] == SystemTurn
      && r[|r| - 1] == user
      && (|h| + 1 > MaxTurns <==> r != h + [user])
  {
    var r := TrimHistory(h + [user]);
    if |h| + 1 > MaxTurns {
      assert |r| == MaxTurns;
      assert r != h + [user];
    }
  }
}
