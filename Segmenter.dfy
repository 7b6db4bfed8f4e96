/**
 * The sentence splitter of the `agent_reply` handler: the global regular
 * expression `([^.!?\n]+[.!?])(\s|$)` applied to the pending `buffer`, first by
 * the `re.exec` loop that emits sentences and then by `buffer.replace(re, '')`
 * that deletes what was matched.
 *
 * The expression is written out as a scanner. From a start position the greedy
 * run `[^.!?\n]+` can only end at its maximal extent (a shorter run would have
 * to be followed by a terminator, which the run itself excludes), so a match
 * starts at `p` exactly when the maximal run from `p` is followed by `.`, `!`
 * or `?` and that by a whitespace character or the end of the buffer.
 */
module Segmenter {
  import opened Wrappers
  import opened Strings

  /** The class `[.!?]`. */
  predicate IsTerminator(c: char) { c == '.' || c == '!' || c == '?' }

  /** The class `[^.!?\n]`. */
  predicate IsBody(c: char) { !IsTerminator(c) && c != '\n' }

  /** The regular expression matches `s` from `p`, with group 1 ending at the terminator `s[q]`. */
  ghost predicate MatchesAt(s: string, p: int, q: int) {
    && 0 <= p < q < |s|
    && (forall k :: p <= k < q ==> IsBody(s[k]))
    && IsTerminator(s[q])
    && (q + 1 == |s| || IsWs(s[q + 1]))
  }

  /** One match: group 1 is `s[start..term + 1]`, the whole match `s[start..end]`. */
  datatype Match = Match(start: nat, term: nat, end: nat)

  /** `m` is the match starting at `m.start`; `(\s|$)` takes one whitespace character when there is one. */
  ghost predicate IsMatch(s: string, m: Match) {
    && MatchesAt(s, m.start, m.term)
    && m.end == (if m.term + 1 < |s| then m.term + 2 else m.term + 1)
  }

  /** A sentence as group 1 captures it: body characters, then one terminator. */
  predicate IsSentence(t: string) {
    && |t| >= 2
    && (forall k :: 0 <= k < |t| - 1 ==> IsBody(t[k]))
    && IsTerminator(t[|t| - 1])
  }

  /** The end of the maximal run of body characters starting at `p`. */
  function RunEnd(s: string, p: nat): (q: nat)
    requires p <= |s|
    ensures p <= q <= |s|
    ensures forall k :: p <= k < q ==> IsBody(s[k])
    ensures q < |s| ==> !IsBody(s[q])
    decreases |s| - p
  {
    if p < |s| && IsBody(s[p]) then RunEnd(s, p + 1) else p
  }

  /** No match starts inside a run of body characters whose end does not complete a match. */
  lemma NoMatchInRun(s: string, from: nat, q: nat)
    requires from <= q <= |s|
    requires forall k :: from <= k < q ==> IsBody(s[k])
    requires q < |s| ==> !IsBody(s[q])
    requires !(q < |s| && IsTerminator(s[q]) && (q + 1 == |s| || IsWs(s[q + 1])))
    ensures forall p, q' :: from <= p < q ==> !MatchesAt(s, p, q')
  {
    forall p, q' | from <= p < q
      ensures !MatchesAt(s, p, q')
    {
    }
  }

  /** `re.exec(s)` with `re.lastIndex == from`: the leftmost match at or after `from`. */
  function Exec(s: string, from: nat): (r: Option<Match>)
    requires from <= |s|
    ensures r.Some? ==> from <= r.value.start <= r.value.term < r.value.end <= |s|
    decreases |s| - from
  {
    if from == |s| then None
    else if !IsBody(s[from]) then Exec(s, from + 1)
    else
      var q := RunEnd(s, from);
      if q < |s| && IsTerminator(s[q]) && (q + 1 == |s| || IsWs(s[q + 1])) then
        Some(Match(from, q, if q + 1 < |s| then q + 2 else q + 1))
      else
        Exec(s, q)
  }

  /** What `exec` returns is a match of the expression. */
  lemma {:induction false} ExecMatches(s: string, from: nat)
    requires from <= |s|
    ensures Exec(s, from).Some? ==> IsMatch(s, Exec(s, from).value)
    decreases |s| - from
  {
    if from < |s| {
      if !IsBody(s[from]) {
        ExecMatches(s, from + 1);
      } else {
        var q := RunEnd(s, from);
        if !(q < |s| && IsTerminator(s[q]) && (q + 1 == |s| || IsWs(s[q + 1]))) {
          ExecMatches(s, q);
        }
      }
    }
  }

  /** `exec` finds the leftmost match: none starts between `from` and the match it
      returns, and none at all from `from` on when it returns nothing. */
  lemma {:induction false} ExecLeftmost(s: string, from: nat)
    requires from <= |s|
    ensures Exec(s, from).Some? ==> forall p, q :: from <= p < Exec(s, from).value.start ==> !MatchesAt(s, p, q)
    ensures Exec(s, from).None? ==> forall p, q :: from <= p ==> !MatchesAt(s, p, q)
    decreases |s| - from
  {
    if from < |s| {
      if !IsBody(s[from]) {
        ExecLeftmost(s, from + 1);
        forall q | true ensures !MatchesAt(s, from, q) {
        }
      } else {
        var q := RunEnd(s, from);
        if !(q < |s| && IsTerminator(s[q]) && (q + 1 == |s| || IsWs(s[q + 1]))) {
          NoMatchInRun(s, from, q);
          ExecLeftmost(s, q);
        }
      }
    }
  }

  /** The buffer cut at the matches: text the expression leaves, and each match as
      its sentence (group 1) and the whitespace character it consumed (group 2). */
  datatype Piece = Kept(text: string) | Cut(sentence: string, separator: string)

  /** `s[from..]` laid out as `Kept, Cut, Kept, ..., Cut, Kept`, the cuts being the
      successive leftmost non-overlapping matches that `exec` and `replace` both find. */
  function Layout(s: string, from: nat): (ps: seq<Piece>)
    requires from <= |s|
    decreases |s| - from
  {
    match Exec(s, from)
    case None => [Kept(s[from..])]
    case Some(m) =>
      [Kept(s[from..m.start]), Cut(s[m.start..m.term + 1], s[m.term + 1..m.end])] + Layout(s, m.end)
  }

  function Flatten(ps: seq<Piece>): string {
    if ps == [] then []
    else
      (match ps[0] case Kept(t) => t case Cut(t, sep) => t + sep) + Flatten(ps[1..])
  }

  /** The sentences, in order, that the `exec` loop emits. */
  function Sentences(ps: seq<Piece>): seq<string> {
    if ps == [] then []
    else (if ps[0].Cut? then [ps[0].sentence] else []) + Sentences(ps[1..])
  }

  /** What `replace(re, '')` leaves: the kept text, in order. */
  function Remainder(ps: seq<Piece>): string {
    if ps == [] then []
    else (if ps[0].Kept? then ps[0].text else []) + Remainder(ps[1..])
  }

  /** `buffer.replace(re, '')`. */
  function Replace(s: string): string {
    Remainder(Layout(s, 0))
  }

  /** Nothing of the buffer is lost or reordered by the layout. */
  lemma {:induction false} LayoutCovers(s: string, from: nat)
    requires from <= |s|
    ensures Flatten(Layout(s, from)) == s[from..]
    decreases |s| - from
  {
    match Exec(s, from)
    case None =>
    case Some(m) =>
      LayoutCovers(s, m.end);
      var ps := Layout(s, from);
      assert ps[1..][1..] == Layout(s, m.end);
      calc {
        Flatten(ps);
        s[from..m.start] + Flatten(ps[1..]);
        s[from..m.start] + ((s[m.start..m.term + 1] + s[m.term + 1..m.end]) + Flatten(ps[1..][1..]));
        s[from..m.start] + ((s[m.start..m.term + 1] + s[m.term + 1..m.end]) + s[m.end..]);
        { assert s[from..] == s[from..m.start] + s[m.start..m.term + 1] + s[m.term + 1..m.end] + s[m.end..]; }
        s[from..];
      }
  }

  /** Kept text and a cut in front of an alternating layout keep it alternating. */
  lemma AlternatesCons(k: Piece, c: Piece, rest: seq<Piece>)
    requires k.Kept? && c.Cut?
    requires |rest| % 2 == 1 && forall i :: 0 <= i < |rest| ==> (rest[i].Kept? <==> i % 2 == 0)
    ensures var ps := [k, c] + rest;
      |ps| % 2 == 1 && forall i :: 0 <= i < |ps| ==> (ps[i].Kept? <==> i % 2 == 0)
  {
    var ps := [k, c] + rest;
    forall i | 2 <= i < |ps|
      ensures ps[i].Kept? <==> i % 2 == 0
    {
      assert ps[i] == rest[i - 2];
    }
  }

  /** The layout alternates kept text and cuts, beginning and ending with kept text. */
  lemma {:induction false} LayoutAlternates(s: string, from: nat)
    requires from <= |s|
    ensures |Layout(s, from)| % 2 == 1
    ensures forall i :: 0 <= i < |Layout(s, from)| ==> (Layout(s, from)[i].Kept? <==> i % 2 == 0)
    decreases |s| - from
  {
    match Exec(s, from)
    case None =>
      assert Layout(s, from) == [Kept(s[from..])];
    case Some(m) =>
      LayoutAlternates(s, m.end);
      var k, c := Kept(s[from..m.start]), Cut(s[m.start..m.term + 1], s[m.term + 1..m.end]);
      AlternatesCons(k, c, Layout(s, m.end));
      assert Layout(s, from) == [k, c] + Layout(s, m.end);
  }

  /** A cut consumed one whitespace character after its sentence, or nothing when the
      sentence ends the buffer, in which case only empty kept text follows it. */
  ghost predicate SeparatedAt(ps: seq<Piece>, i: int)
    requires 0 <= i < |ps| && ps[i].Cut?
  {
    || (|ps[i].separator| == 1 && IsWs(ps[i].separator[0]))
    || (ps[i].separator == [] && i == |ps| - 2 && ps[i + 1] == Kept([]))
  }

  /** Kept text and a separated sentence in front of a layout whose cuts are
      separated sentences keep that so. */
  lemma CutsCons(k: Piece, c: Piece, rest: seq<Piece>)
    requires k.Kept? && c.Cut? && IsSentence(c.sentence)
    requires || (|c.separator| == 1 && IsWs(c.separator[0]))
             || (c.separator == [] && rest == [Kept([])])
    requires forall i :: 0 <= i < |rest| && rest[i].Cut? ==> IsSentence(rest[i].sentence) && SeparatedAt(rest, i)
    ensures var ps := [k, c] + rest;
      forall i :: 0 <= i < |ps| && ps[i].Cut? ==> IsSentence(ps[i].sentence) && SeparatedAt(ps, i)
  {
    var ps := [k, c] + rest;
    forall i | 2 <= i < |ps| && ps[i].Cut?
      ensures IsSentence(ps[i].sentence) && SeparatedAt(ps, i)
    {
      assert ps[i] == rest[i - 2];
      assert SeparatedAt(rest, i - 2);
      if i == |rest| {
        assert ps[i + 1] == rest[i - 1];
      }
    }
    assert SeparatedAt(ps, 1);
  }

  /** Every cut is a well-formed sentence followed by its separator. */
  lemma {:induction false} LayoutCuts(s: string, from: nat)
    requires from <= |s|
    ensures forall i :: 0 <= i < |Layout(s, from)| && Layout(s, from)[i].Cut? ==>
      IsSentence(Layout(s, from)[i].sentence) && SeparatedAt(Layout(s, from), i)
    decreases |s| - from
  {
    match Exec(s, from)
    case None =>
      assert Layout(s, from) == [Kept(s[from..])];
    case Some(m) =>
      LayoutCuts(s, m.end);
      ExecMatches(s, from);
      var k, c := Kept(s[from..m.start]), Cut(s[m.start..m.term + 1], s[m.term + 1..m.end]);
      assert IsSentence(c.sentence);
      if m.term + 1 == |s| {
        assert m.end == |s| && Exec(s, m.end).None? && s[m.end..] == [];
        assert Layout(s, m.end) == [Kept([])];
      } else {
        assert c.separator == [s[m.term + 1]];
      }
      CutsCons(k, c, Layout(s, m.end));
      assert Layout(s, from) == [k, c] + Layout(s, m.end);
  }

  /** The sentences of the layout are exactly the groups 1 of the matches `exec` returns from `from` on. */
  lemma {:induction false} SentencesAreMatches(s: string, from: nat)
    requires from <= |s|
    ensures forall t :: t in Sentences(Layout(s, from)) ==> IsSentence(t)
    decreases |s| - from
  {
    match Exec(s, from)
    case None =>
    case Some(m) =>
      SentencesAreMatches(s, m.end);
      ExecMatches(s, from);
      var ps := Layout(s, from);
      assert ps[1..][1..] == Layout(s, m.end);
      assert Sentences(ps) == [s[m.start..m.term + 1]] + Sentences(Layout(s, m.end));
  }

  /** One step of the `exec` loop: a match contributes its group 1 and scanning
      resumes at its end; no match means no sentence is left from `from` on. */
  lemma SentencesStep(s: string, from: nat)
    requires from <= |s|
    ensures Exec(s, from).None? ==> Sentences(Layout(s, from)) == []
    ensures Exec(s, from).Some? ==>
      var m := Exec(s, from).value;
      Sentences(Layout(s, from)) == [s[m.start..m.term + 1]] + Sentences(Layout(s, m.end))
  {
    if Exec(s, from).Some? {
      var m := Exec(s, from).value;
      var ps := Layout(s, from);
      assert ps[1..][1..] == Layout(s, m.end);
    }
  }

  /** The state after the generated pieces `pieces`: the sentences emitted so far
      and the pending `buffer`. Each piece is appended, its sentences emitted, and
      the matched spans deleted. */
  function Segments(pieces: seq<string>): (r: (seq<string>, string))
    decreases |pieces|
  {
    if pieces == [] then ([], "")
    else
      var (sents, buffer) := Segments(pieces[..|pieces| - 1]);
      var s := buffer + pieces[|pieces| - 1];
      (sents + Sentences(Layout(s, 0)), Replace(s))
  }

  /** Appending one more piece. */
  lemma SegmentsSnoc(pieces: seq<string>, p: string)
    ensures var s := Segments(pieces).1 + p;
      Segments(pieces + [p]) == (Segments(pieces).0 + Sentences(Layout(s, 0)), Replace(s))
  {
    assert (pieces + [p])[..|pieces|] == pieces;
  }

  /** Every sentence emitted while streaming is a well-formed sentence. */
  lemma {:induction false} SegmentsAreSentences(pieces: seq<string>)
    ensures forall t :: t in Segments(pieces).0 ==> IsSentence(t)
    decreases |pieces|
  {
    if pieces != [] {
      SegmentsAreSentences(pieces[..|pieces| - 1]);
      var s := Segments(pieces[..|pieces| - 1]).1 + pieces[|pieces| - 1];
      SentencesAreMatches(s, 0);
    }
  }

  /** A sentence is never blank: its terminator survives `trim`. */
  lemma SentenceNotBlank(t: string)
    requires IsSentence(t)
    ensures Trim(t) != []
  {
    assert !IsWs(t[|t| - 1]);
  }
}
