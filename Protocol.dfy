/**
 * The wire vocabulary between the browser and the realtime server: the events
 * the server emits on the socket (`realtime-server/src/types.ts`) and their error
 * codes. Audio travels as opaque byte strings.
 */
module Protocol {

  newtype byte = x: int | 0 <= x < 256

  type Bytes = seq<byte>

  /** Server-to-client events, in the order `socket.emit` sends them. */
  datatype ServerEvent =
    | AsrPartial(text: string)
    | AsrFinal(text: string)
    | Thinking
    | ReplyText(text: string)
    | TtsChunk(audio: Bytes)
    | TtsDone
    | Error(code: string, message: string)

  const DgAsr: string := "DG_ASR"
  const DgAsrOpen: string := "DG_ASR_OPEN"
  const DgTts: string := "DG_TTS"
  const LlmStream: string := "LLM_STREAM"

  predicate IsDigit(c: char) { '0' <= c <= '9' }

  /** A status code as template-literal interpolation prints it. */
  function DecimalString(n: nat): (r: string)
    ensures |r| >= 1 && forall k :: 0 <= k < |r| ==> IsDigit(r[k])
    ensures r[0] == '0' ==> n == 0
    decreases n
  {
    if n < 10 then [('0' as int + n) as char]
    else DecimalString(n / 10) + [('0' as int + n % 10) as char]
  }

  function DecimalValue(s: string): nat
    requires forall k :: 0 <= k < |s| ==> IsDigit(s[k])
    decreases |s|
  {
    if s == [] then 0
    else
      assert IsDigit(s[|s| - 1]);
      DecimalValue(s[..|s| - 1]) * 10 + (s[|s| - 1] as int - '0' as int)
  }

  /** The printed status reads back as the status. */
  lemma {:induction false} DecimalRoundTrip(n: nat)
    ensures DecimalValue(DecimalString(n)) == n
    decreases n
  {
    if n >= 10 {
      DecimalRoundTrip(n / 10);
      var r := DecimalString(n);
      assert r[..|r| - 1] == DecimalString(n / 10);
    }
  }
}
