/**
 * What the splitter does on concrete replies. Each example is stated over
 * parameters fixed by its `requires`, which keeps the solver from unfolding
 * the definitions on literals all at once.
 */
module SegmenterExamples {
  import opened Wrappers
  import opened Segmenter

  lemma OneCut(a: string, t: string, sep: string, b: string)
    ensures Sentences([Kept(a), Cut(t, sep), Kept(b)]) == [t]
    ensures Remainder([Kept(a), Cut(t, sep), Kept(b)]) == a + b
  {
    var ps := [Kept(a), Cut(t, sep), Kept(b)];
    assert ps[1..] == [Cut(t, sep), Kept(b)];
    assert ps[1..][1..] == [Kept(b)];
    assert ps[1..][1..][1..] == [];
    assert Remainder(ps[1..][1..]) == b;
    assert Remainder(ps[1..]) == b;
    assert Sentences(ps[1..][1..]) == [];
    assert Sentences(ps[1..]) == [t];
  }

  lemma NoCut(a: string)
    ensures Sentences([Kept(a)]) == [] && Remainder([Kept(a)]) == a
  {
    assert [Kept(a)][1..] == [];
  }

  // ---- "Hi\n" then "There.": the unmatched line is spoken after the sentence that followed it

  lemma LayoutHi()
    ensures Layout("Hi\n", 0) == [Kept("Hi\n")]
  {
    var s := "Hi\n";
    assert Exec(s, 2) == None;
    assert RunEnd(s, 1) == 2;
    assert RunEnd(s, 0) == 2;
  }

  lemma RunsHiThere(s: string)
    requires s == "Hi\nThere."
    ensures RunEnd(s, 0) == 2 && RunEnd(s, 3) == 8
  {
    assert RunEnd(s, 1) == 2;
    assert RunEnd(s, 7) == 8;
    assert RunEnd(s, 6) == 8;
    assert RunEnd(s, 5) == 8;
    assert RunEnd(s, 4) == 8;
  }

  lemma ExecHiThere(s: string)
    requires s == "Hi\nThere."
    ensures Exec(s, 0) == Some(Match(3, 8, 9))
  {
    RunsHiThere(s);
    assert Exec(s, 0) == Exec(s, 2);
    assert Exec(s, 2) == Exec(s, 3);
  }

  lemma LayoutHiThere()
    ensures Layout("Hi\nThere.", 0) == [Kept("Hi\n"), Cut("There.", []), Kept([])]
  {
    var s := "Hi\nThere.";
    ExecHiThere(s);
    assert s[9..] == [];
    assert Layout(s, 9) == [Kept([])];
    assert s[0..3] == "Hi\n" && s[3..9] == "There." && s[9..9] == [];
  }

  lemma CutHiThere(p1: string, p2: string)
    requires p1 == "Hi\n" && p2 == "There."
    ensures Sentences(Layout(p1 + p2, 0)) == [p2]
    ensures Replace(p1 + p2) == p1
  {
    assert p1 + p2 == "Hi\nThere.";
    LayoutHiThere();
    OneCut(p1, p2, [], []);
  }

  lemma SegmentsHi(p1: string)
    requires p1 == "Hi\n"
    ensures Segments([p1]) == ([], p1)
  {
    SegmentsSnoc([], p1);
    LayoutHi();
    NoCut(p1);
    assert [] + [p1] == [p1];
  }

  /** A line the expression cannot match stays pending and is only emitted, as the
      tail, after the sentence that came after it in the reply. */
  lemma NewlineDeferred(p1: string, p2: string)
    requires p1 == "Hi\n" && p2 == "There."
    ensures Segments([p1, p2]) == ([p2], p1)
  {
    SegmentsHi(p1);
    CutHiThere(p1, p2);
    SegmentsSnoc([p1], p2);
    var st := Segments([p1]);
    assert st.1 + p2 == p1 + p2;
    assert Segments([p1] + [p2]) == (st.0 + [p2], p1);
    assert st.0 + [p2] == [p2];
    assert [p1] + [p2] == [p1, p2];
  }

  // ---- "A.", " B!", " C": sentences keep their leading space; only the tail is trimmed later

  lemma LayoutA()
    ensures Layout("A.", 0) == [Kept([]), Cut("A.", []), Kept([])]
  {
    var s := "A.";
    assert RunEnd(s, 1) == 1;
    assert RunEnd(s, 0) == 1;
    assert Exec(s, 0) == Some(Match(0, 1, 2));
    assert s[2..] == [];
    assert Layout(s, 2) == [Kept([])];
    assert s[0..0] == [] && s[0..2] == "A." && s[2..2] == [];
  }

  lemma LayoutB()
    ensures Layout(" B!", 0) == [Kept([]), Cut(" B!", []), Kept([])]
  {
    var s := " B!";
    assert RunEnd(s, 2) == 2;
    assert RunEnd(s, 1) == 2;
    assert RunEnd(s, 0) == 2;
    assert Exec(s, 0) == Some(Match(0, 2, 3));
    assert s[3..] == [];
    assert Layout(s, 3) == [Kept([])];
    assert s[0..0] == [] && s[0..3] == " B!" && s[3..3] == [];
  }

  lemma LayoutC()
    ensures Layout(" C", 0) == [Kept(" C")]
  {
    var s := " C";
    assert RunEnd(s, 2) == 2;
    assert RunEnd(s, 1) == 2;
    assert RunEnd(s, 0) == 2;
    assert Exec(s, 2) == None;
    assert Exec(s, 0) == None;
    assert s[0..] == s;
  }

  lemma SegmentsA(p1: string)
    requires p1 == "A."
    ensures Segments([p1]) == ([p1], [])
  {
    SegmentsSnoc([], p1);
    assert [] + p1 == "A.";
    LayoutA();
    OneCut([], p1, [], []);
    assert [] + [p1] == [p1];
  }

  lemma CutB(p: string)
    requires p == " B!"
    ensures Sentences(Layout(p, 0)) == [p] && Replace(p) == []
  {
    LayoutB();
    OneCut([], p, [], []);
  }

  lemma SegmentsAB(p1: string, p2: string)
    requires p1 == "A." && p2 == " B!"
    ensures Segments([p1, p2]) == ([p1, p2], [])
  {
    SegmentsA(p1);
    SegmentsSnoc([p1], p2);
    var st := Segments([p1]);
    assert st.1 + p2 == p2;
    CutB(p2);
    assert [p1] + [p2] == [p1, p2];
  }

  /** The reply streamed as `"A."`, `" B!"`, `" C"`: two sentences, the second with
      its leading space, and `" C"` left pending for the tail. */
  lemma OrderedReply(p1: string, p2: string, p3: string)
    requires p1 == "A." && p2 == " B!" && p3 == " C"
    ensures Segments([p1, p2, p3]) == ([p1, p2], p3)
  {
    SegmentsAB(p1, p2);
    SegmentsSnoc([p1, p2], p3);
    var st := Segments([p1, p2]);
    assert st.1 + p3 == p3;
    LayoutC();
    NoCut(p3);
    assert Sentences(Layout(p3, 0)) == [] && Replace(p3) == p3;
    assert Segments([p1, p2] + [p3]) == (st.0 + [], p3);
    assert st.0 + [] == [p1, p2];
    assert [p1, p2] + [p3] == [p1, p2, p3];
  }

  // ---- "3.14 is pi.": the decimal point ends no sentence, so "3." is left behind

  lemma RunDecimal(s: string)
    requires s == "3.14 is pi."
    ensures RunEnd(s, 2) == 10
  {
    assert RunEnd(s, 10) == 10;
    assert RunEnd(s, 9) == 10;
    assert RunEnd(s, 8) == 10;
    assert RunEnd(s, 7) == 10;
    assert RunEnd(s, 6) == 10;
    assert RunEnd(s, 5) == 10;
    assert RunEnd(s, 4) == 10;
    assert RunEnd(s, 3) == 10;
  }

  lemma ExecDecimal(s: string)
    requires s == "3.14 is pi."
    ensures Exec(s, 0) == Some(Match(2, 10, 11))
  {
    assert RunEnd(s, 1) == 1;
    assert RunEnd(s, 0) == 1;
    assert Exec(s, 0) == Exec(s, 1);
    assert Exec(s, 1) == Exec(s, 2);
    RunDecimal(s);
  }

  lemma LayoutDecimal(s: string)
    requires s == "3.14 is pi."
    ensures Layout(s, 0) == [Kept("3."), Cut("14 is pi.", []), Kept([])]
  {
    ExecDecimal(s);
    assert s[11..] == [];
    assert Layout(s, 11) == [Kept([])];
    assert s[0..2] == "3." && s[2..11] == "14 is pi." && s[11..11] == [];
  }

  /** The number is split at its decimal point: `"14 is pi."` is emitted as a
      sentence and `"3."` stays pending, to be spoken after it. */
  lemma DecimalSplit(p: string)
    requires p == "3.14 is pi."
    ensures Segments([p]) == (["14 is pi."], "3.")
  {
    SegmentsSnoc([], p);
    assert [] + p == p;
    LayoutDecimal(p);
    OneCut("3.", "14 is pi.", [], []);
    assert Sentences(Layout(p, 0)) == ["14 is pi."];
    assert Replace(p) == "3." + [];
    assert Segments([] + [p]) == ([] + ["14 is pi."], "3." + []);
    assert [] + ["14 is pi."] == ["14 is pi."] && "3." + [] == "3.";
    assert [] + [p] == [p];
  }

  // ---- "Hello there. How are you": one sentence now, the rest at the end of the stream

  lemma RunHello(s: string)
    requires s == "Hello there. How are you"
    ensures RunEnd(s, 0) == 11
  {
    assert RunEnd(s, 11) == 11;
    assert RunEnd(s, 10) == 11;
    assert RunEnd(s, 9) == 11;
    assert RunEnd(s, 8) == 11;
    assert RunEnd(s, 7) == 11;
    assert RunEnd(s, 6) == 11;
    assert RunEnd(s, 5) == 11;
    assert RunEnd(s, 4) == 11;
    assert RunEnd(s, 3) == 11;
    assert RunEnd(s, 2) == 11;
    assert RunEnd(s, 1) == 11;
  }

  lemma RunHowAreYou(s: string)
    requires s == "Hello there. How are you"
    ensures RunEnd(s, 13) == 24
  {
    assert RunEnd(s, 24) == 24;
    assert RunEnd(s, 23) == 24;
    assert RunEnd(s, 22) == 24;
    assert RunEnd(s, 21) == 24;
    assert RunEnd(s, 20) == 24;
    assert RunEnd(s, 19) == 24;
    assert RunEnd(s, 18) == 24;
    assert RunEnd(s, 17) == 24;
    assert RunEnd(s, 16) == 24;
    assert RunEnd(s, 15) == 24;
    assert RunEnd(s, 14) == 24;
  }

  lemma LayoutHello(s: string)
    requires s == "Hello there. How are you"
    ensures Layout(s, 0) == [Kept([]), Cut("Hello there.", " "), Kept("How are you")]
  {
    RunHello(s);
    assert Exec(s, 0) == Some(Match(0, 11, 13));
    RunHowAreYou(s);
    assert Exec(s, 24) == None;
    assert Exec(s, 13) == None;
    assert Layout(s, 13) == [Kept(s[13..])];
    assert s[0..0] == [] && s[0..12] == "Hello there." && s[12..13] == " " && s[13..] == "How are you";
  }

  /** `"Hello there."` is emitted as soon as its boundary is seen; `"How are you"`
      waits for the end of the stream. */
  lemma HelloSplit(p: string)
    requires p == "Hello there. How are you"
    ensures Segments([p]) == (["Hello there."], "How are you")
  {
    SegmentsSnoc([], p);
    assert [] + p == p;
    LayoutHello(p);
    OneCut([], "Hello there.", " ", "How are you");
    assert Sentences(Layout(p, 0)) == ["Hello there."];
    assert Replace(p) == [] + "How are you";
    assert Segments([] + [p]) == ([] + ["Hello there."], [] + "How are you");
    assert [] + ["Hello there."] == ["Hello there."] && [] + "How are you" == "How are you";
    assert [] + [p] == [p];
  }
}
