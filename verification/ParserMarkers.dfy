/** What the parser makes of a text, told by where the markers stand in it, however the text arrives. */
module ParserMarkers {
  import opened Options
  import opened Strings
  import opened JsonRecovery
  import opened OutputParser
  import opened ParserSplits

  ghost predicate Has(text: string, m: string) {
    exists i: int :: Occurs(text, m, i)
  }

  /** `m` stands at `i` and nowhere before. */
  ghost predicate FirstAt(text: string, m: string, i: nat) {
    Occurs(text, m, i) && forall k: int :: k < i ==> !Occurs(text, m, k)
  }

  /** The markers, letter by letter. */
  lemma Markers()
    ensures GEMMA_THOUGHT_START == "<|channel>thought" && GEMMA_THOUGHT_END == "<channel|>"
    ensures QWEN_THOUGHT_START == "<think>" && QWEN_THOUGHT_END == "</think>" && TURN_END == "<turn|>"
  {
  }

  lemma FindHas(text: string, m: string)
    ensures Find(text, m, 0) >= 0 <==> Has(text, m)
    ensures RFind(text, m) >= 0 <==> Has(text, m)
    ensures forall i: nat :: FirstAt(text, m, i) ==> Find(text, m, 0) == i
  {
    assert forall k: int :: Occurs(text, m, k) ==> 0 <= k;
    hide Occurs;
    if i: int :| Occurs(text, m, i) {
      assert Find(text, m, 0) >= 0 && RFind(text, m) >= 0;
    }
    forall i: nat | FirstAt(text, m, i) ensures Find(text, m, 0) == i {
      assert Occurs(text, m, i);
    }
  }

  lemma FindIs(text: string, m: string, from: nat, i: nat)
    requires from <= i && Occurs(text, m, i) && forall k: int :: from <= k < i ==> !Occurs(text, m, k)
    ensures Find(text, m, from) == i
  {
    hide Occurs;
  }

  // --- Unterminated reasoning ---

  // A parser still without a final text has looked at the whole text in vain.
  lemma {:induction false} NoCutAtEnd(deltas: seq<string>, fed: string, cut: Option<nat>)
    requires CutAfter(deltas, fed, cut) == None && (cut == None ==> CutOf(fed) == None)
    ensures cut == None && CutOf(fed + Concat(deltas)) == None
    decreases |deltas|
  {
    hide CutOf, TextStart, TextEnd, Find, RFindBelow, Space;
    if cut.Some? {
      KeptCut(deltas, fed, cut);
    } else if deltas == [] {
      assert fed + "" == fed;
    } else {
      var now := fed + deltas[0];
      assert deltas[0] == "" ==> now == fed;
      NoCutAtEnd(deltas[1..], now, if deltas[0] == "" then None else CutOf(now));
      assert now + Concat(deltas[1..]) == fed + Concat(deltas);
    }
  }

  lemma NoCutMeans(text: string)
    requires CutOf(text) == None
    ensures Has(text, GEMMA_THOUGHT_START) || !Has(text, QWEN_THOUGHT_END)
    ensures forall i: nat :: FirstAt(text, GEMMA_THOUGHT_START, i) ==>
      forall k: int :: i + |GEMMA_THOUGHT_START| <= k ==> !Occurs(text, GEMMA_THOUGHT_END, k)
  {
    hide Find, RFind, Has, Occurs, FirstAt, GEMMA_THOUGHT_START, GEMMA_THOUGHT_END, QWEN_THOUGHT_END;
    FindHas(text, GEMMA_THOUGHT_START);
    FindHas(text, QWEN_THOUGHT_END);
  }

  lemma PhaseMeans(text: string)
    ensures PhaseOf(text) == Gemma <==> Has(text, GEMMA_THOUGHT_START)
    ensures PhaseOf(text) == Qwen <==> !Has(text, GEMMA_THOUGHT_START) && Has(text, QWEN_THOUGHT_START)
  {
    hide Find, RFind, Has, GEMMA_THOUGHT_START, QWEN_THOUGHT_START;
    FindHas(text, GEMMA_THOUGHT_START);
    FindHas(text, QWEN_THOUGHT_START);
  }

  lemma NeverUnterminated(u: string)
    ensures Completed(LStrip(u), TURN_END) != Refused(UnterminatedQwen)
    ensures Completed(LStrip(u), TURN_END) != Refused(UnterminatedGemma)
  {
  }

  lemma OutcomeMeans(text: string, cut: Option<nat>)
    requires cut.Some? ==> cut.value <= |text|
    ensures OutcomeOf(text, cut) == Refused(UnterminatedQwen) <==> cut == None && PhaseOf(text) == Qwen
    ensures OutcomeOf(text, cut) == Refused(UnterminatedGemma) <==> cut == None && PhaseOf(text) == Gemma
  {
    hide Completed, LStrip, PhaseOf, TURN_END;
    NeverUnterminated(text);
    if cut.Some? {
      NeverUnterminated(text[cut.value..]);
    }
  }

  lemma EndOfRun(deltas: seq<string>)
    ensures CutAfter(deltas, "", None) == None ==> CutOf(Concat(deltas)) == None
    ensures Unambiguous(Concat(deltas)) ==> CutAfter(deltas, "", None) == CutOf(Concat(deltas))
  {
    hide CutOf, Unambiguous;
    EmptyHasNoCut();
    assert "" + Concat(deltas) == Concat(deltas);
    if CutAfter(deltas, "", None) == None {
      NoCutAtEnd(deltas, "", None);
    }
    if Unambiguous(Concat(deltas)) {
      StableCut(Concat(deltas), deltas, "", None);
    }
  }

  /** With reasoning on, a text is refused for an open think block exactly if it has the opening marker, no
      closing one and no thought channel, whatever its pieces. */
  lemma QwenUnterminatedExactlyWhen(deltas: seq<string>)
    ensures var text := Concat(deltas);
      Parsed(true, deltas) == Refused(UnterminatedQwen) <==>
      Has(text, QWEN_THOUGHT_START) && !Has(text, QWEN_THOUGHT_END) && !Has(text, GEMMA_THOUGHT_START)
  {
    hide CutOf, PhaseOf, OutcomeOf, Has, Concat, CutAfter, GEMMA_THOUGHT_START, GEMMA_THOUGHT_END, QWEN_THOUGHT_START,
      QWEN_THOUGHT_END, TURN_END, Unambiguous;
    var text := Concat(deltas);
    CutInside(deltas, "", None);
    assert "" + Concat(deltas) == Concat(deltas);
    OutcomeMeans(text, CutAfter(deltas, "", None));
    PhaseMeans(text);
    EndOfRun(deltas);
    if CutOf(text) == None {
      NoCutMeans(text);
    }
    WithoutClose(text);
  }

  lemma WithoutClose(text: string)
    ensures !Has(text, QWEN_THOUGHT_END) ==> Unambiguous(text)
    ensures !Has(text, QWEN_THOUGHT_END) && !Has(text, GEMMA_THOUGHT_START) ==> CutOf(text) == None
  {
    hide Find, RFind, Has, GEMMA_THOUGHT_START, GEMMA_THOUGHT_END, QWEN_THOUGHT_END;
    FindHas(text, QWEN_THOUGHT_END);
    FindHas(text, GEMMA_THOUGHT_START);
  }

  /** A thought channel that starts at `i`, and before which no think block is closed, is refused as unterminated
      exactly if nothing after it ends it, whatever the pieces. */
  lemma GemmaUnterminatedExactlyWhen(deltas: seq<string>, i: nat)
    requires FirstAt(Concat(deltas), GEMMA_THOUGHT_START, i)
    requires forall k: int ::
      Occurs(Concat(deltas), QWEN_THOUGHT_END, k) ==> i + |GEMMA_THOUGHT_START| <= k + |QWEN_THOUGHT_END|
    ensures Parsed(true, deltas) == Refused(UnterminatedGemma) <==>
      forall k: int :: i + |GEMMA_THOUGHT_START| <= k ==> !Occurs(Concat(deltas), GEMMA_THOUGHT_END, k)
  {
    assert Has(Concat(deltas), GEMMA_THOUGHT_START);
    hide CutOf, PhaseOf, OutcomeOf, Has, Concat, CutAfter, GEMMA_THOUGHT_START, GEMMA_THOUGHT_END, QWEN_THOUGHT_START,
      QWEN_THOUGHT_END, TURN_END, Unambiguous, Occurs;
    var text := Concat(deltas);
    CutInside(deltas, "", None);
    assert "" + Concat(deltas) == Concat(deltas);
    OutcomeMeans(text, CutAfter(deltas, "", None));
    PhaseMeans(text);
    EndOfRun(deltas);
    GemmaFirst(text, i);
  }

  lemma GemmaFirst(text: string, i: nat)
    requires FirstAt(text, GEMMA_THOUGHT_START, i)
    requires forall k: int :: Occurs(text, QWEN_THOUGHT_END, k) ==>
      i + |GEMMA_THOUGHT_START| <= k + |QWEN_THOUGHT_END|
    ensures Unambiguous(text)
    ensures CutOf(text) == None <==>
      forall k: int :: i + |GEMMA_THOUGHT_START| <= k ==> !Occurs(text, GEMMA_THOUGHT_END, k)
  {
    hide Find, RFind, Has, Occurs, FirstAt, GEMMA_THOUGHT_START, GEMMA_THOUGHT_END, QWEN_THOUGHT_END;
    FindHas(text, GEMMA_THOUGHT_START);
    assert 0 <= Find(text, GEMMA_THOUGHT_START, 0);
    var end := Find(text, GEMMA_THOUGHT_END, i + |GEMMA_THOUGHT_START|);
  }

  /** A text is never refused for a thought channel it does not have. */
  lemma GemmaUnterminatedHasStart(deltas: seq<string>)
    requires Parsed(true, deltas) == Refused(UnterminatedGemma)
    ensures Has(Concat(deltas), GEMMA_THOUGHT_START)
  {
    hide CutOf, PhaseOf, OutcomeOf, Has, Concat, CutAfter, GEMMA_THOUGHT_START, GEMMA_THOUGHT_END, QWEN_THOUGHT_START,
      QWEN_THOUGHT_END, TURN_END, Unambiguous;
    CutInside(deltas, "", None);
    assert "" + Concat(deltas) == Concat(deltas);
    OutcomeMeans(Concat(deltas), CutAfter(deltas, "", None));
    PhaseMeans(Concat(deltas));
  }

  // --- Complete reasoning ---

  /** The thought channel starts at `i` and ends with the marker at `e`; no think block is closed before it. */
  ghost predicate Channel(text: string, i: nat, e: nat) {
    && FirstAt(text, GEMMA_THOUGHT_START, i) && i + |GEMMA_THOUGHT_START| <= e && Occurs(text, GEMMA_THOUGHT_END, e)
    && (forall k: int :: i + |GEMMA_THOUGHT_START| <= k < e ==> !Occurs(text, GEMMA_THOUGHT_END, k))
    && forall k: int :: Occurs(text, QWEN_THOUGHT_END, k) ==> i + |GEMMA_THOUGHT_START| <= k + |QWEN_THOUGHT_END|
  }

  /** There is no thought channel, and the only closing marker of a think block is at `e`. */
  ghost predicate Closed(text: string, e: nat) {
    && !Has(text, GEMMA_THOUGHT_START) && Occurs(text, QWEN_THOUGHT_END, e)
    && forall k: int :: Occurs(text, QWEN_THOUGHT_END, k) ==> k == e
  }

  // All a run depends on, for a text with one cut.
  lemma RunIs(deltas: seq<string>, c: nat)
    requires Unambiguous(Concat(deltas)) && CutOf(Concat(deltas)) == Some(c)
    ensures c <= |Concat(deltas)|
    ensures FinalAfter(true, deltas) == LStrip(Concat(deltas)[c..])
    ensures ReasoningIn(true, deltas) == ReasoningOf(Concat(deltas))
  {
    hide CutOf, Unambiguous, LStrip, ReasoningOf, Concat, CutAfter;
    EndOfRun(deltas);
    ReasoningAtCut(Concat(deltas));
  }

  lemma ChannelCut(text: string, i: nat, e: nat)
    requires Channel(text, i, e)
    ensures Unambiguous(text) && CutOf(text) == Some(e + |GEMMA_THOUGHT_END|) && e + |GEMMA_THOUGHT_END| <= |text|
    ensures i + |GEMMA_THOUGHT_START| <= e
    ensures ReasoningOf(text) == Reasoning(GemmaFormat, |Strip(text[i + |GEMMA_THOUGHT_START|..e])|)
  {
    assert e + |GEMMA_THOUGHT_END| <= |text|;
    hide Find, RFind, Strip, FirstAt, Occurs, GEMMA_THOUGHT_START, GEMMA_THOUGHT_END, QWEN_THOUGHT_START,
      QWEN_THOUGHT_END;
    GemmaFirst(text, i);
    FindHas(text, GEMMA_THOUGHT_START);
    FindIs(text, GEMMA_THOUGHT_END, i + |GEMMA_THOUGHT_START|, e);
  }

  /** A complete thought channel is cut off and measured, and the final text is what follows it, whatever the
      pieces. */
  lemma ChannelIsCutOff(deltas: seq<string>, i: nat, e: nat)
    requires Channel(Concat(deltas), i, e)
    ensures e + |GEMMA_THOUGHT_END| <= |Concat(deltas)| && i + |GEMMA_THOUGHT_START| <= e
    ensures FinalAfter(true, deltas) == LStrip(Concat(deltas)[e + |GEMMA_THOUGHT_END|..])
    ensures ReasoningIn(true, deltas) == Reasoning(GemmaFormat, |Strip(Concat(deltas)[i + |GEMMA_THOUGHT_START|..e])|)
  {
    hide *;
    ChannelCut(Concat(deltas), i, e);
    RunIs(deltas, e + |GEMMA_THOUGHT_END|);
  }

  lemma ClosedCut(text: string, e: nat)
    requires Closed(text, e)
    ensures Unambiguous(text) && CutOf(text) == Some(e + |QWEN_THOUGHT_END|) && e + |QWEN_THOUGHT_END| <= |text|
    ensures (forall k: int :: k < e ==> !Occurs(text, QWEN_THOUGHT_START, k)) ==>
      ReasoningOf(text) == Reasoning(QwenFormat, |Strip(text[..e])|)
    ensures forall o: nat :: FirstAt(text, QWEN_THOUGHT_START, o) && o < e ==>
      && o + |QWEN_THOUGHT_START| <= e
      && ReasoningOf(text) == Reasoning(QwenFormat, |Strip(text[o + |QWEN_THOUGHT_START|..e])|)
  {
    assert e + |QWEN_THOUGHT_END| <= |text|;
    assert text[0..e] == text[..e];
    hide Find, RFind, Strip, GEMMA_THOUGHT_START, GEMMA_THOUGHT_END, QWEN_THOUGHT_START, QWEN_THOUGHT_END;
    OpenBeforeClose(text, e);
    FindHas(text, GEMMA_THOUGHT_START);
    FindHas(text, QWEN_THOUGHT_START);
    FindHas(text, QWEN_THOUGHT_END);
    hide Occurs;
    assert Find(text, QWEN_THOUGHT_END, 0) == e && RFind(text, QWEN_THOUGHT_END) == e;
  }

  /** A think block that is closed once is cut off and measured from its opening marker, if there is one before
      it; the final text is what follows, whatever the pieces. */
  lemma BlockIsCutOff(deltas: seq<string>, e: nat)
    requires Closed(Concat(deltas), e)
    ensures e + |QWEN_THOUGHT_END| <= |Concat(deltas)|
    ensures FinalAfter(true, deltas) == LStrip(Concat(deltas)[e + |QWEN_THOUGHT_END|..])
    ensures (forall k: int :: k < e ==> !Occurs(Concat(deltas), QWEN_THOUGHT_START, k)) ==>
      ReasoningIn(true, deltas) == Reasoning(QwenFormat, |Strip(Concat(deltas)[..e])|)
    ensures forall o: nat :: FirstAt(Concat(deltas), QWEN_THOUGHT_START, o) && o < e ==>
      o + |QWEN_THOUGHT_START| <= e && ReasoningIn(true, deltas)
        == Reasoning(QwenFormat, |Strip(Concat(deltas)[o + |QWEN_THOUGHT_START|..e])|)
  {
    hide *;
    ClosedCut(Concat(deltas), e);
    RunIs(deltas, e + |QWEN_THOUGHT_END|);
  }

  lemma OpenBeforeClose(text: string, e: nat)
    requires Occurs(text, QWEN_THOUGHT_END, e)
    ensures forall o: nat :: Occurs(text, QWEN_THOUGHT_START, o) && o < e ==> o + |QWEN_THOUGHT_START| <= e
  {
    assert forall k :: 0 < k < |QWEN_THOUGHT_START| ==> QWEN_THOUGHT_START[k] != '<';
    assert QWEN_THOUGHT_END != [] && QWEN_THOUGHT_END[0] == '<';
    hide QWEN_THOUGHT_START, QWEN_THOUGHT_END, Occurs;
    forall o: nat | Occurs(text, QWEN_THOUGHT_START, o) && o < e ensures o + |QWEN_THOUGHT_START| <= e {
      MarkersDoNotOverlap(text, QWEN_THOUGHT_START, o, QWEN_THOUGHT_END, e);
    }
  }

  /** Without any marker the whole text is final, and no reasoning is reported. */
  lemma PlainIsFinal(deltas: seq<string>)
    requires !Has(Concat(deltas), GEMMA_THOUGHT_START) && !Has(Concat(deltas), QWEN_THOUGHT_END)
    ensures FinalAfter(true, deltas) == LStrip(Concat(deltas)) && ReasoningIn(true, deltas) == Reasoning(NoFormat, 0)
  {
    hide CutOf, Has, Concat, CutAfter, GEMMA_THOUGHT_START, GEMMA_THOUGHT_END, QWEN_THOUGHT_START,
      QWEN_THOUGHT_END, TURN_END, Unambiguous, LStrip;
    WithoutClose(Concat(deltas));
    EndOfRun(deltas);
  }

  // --- The answer ---

  // Text that neither starts nor ends with a blank.
  predicate Tight(x: string) {
    x != "" && !Space(x[0]) && !Space(x[|x| - 1])
  }

  lemma StripTight(v: string, x: string, w: string)
    requires Blank(v) && Blank(w) && Tight(x)
    ensures Strip(v + x + w) == x
  {
    hide Space, TextStart, TextEnd;
    assert v + x + w == v + (x + w);
    LStripConcat(v, x + w);
    TextStartIs(x + w, 0);
    assert LStrip(x + w) == x + w;
    RStripConcat(x, w);
    TextEndIs(x, |x|);
    assert x[..|x|] == x;
  }

  // A blank in front leaves the right end alone.
  lemma RStripTight(x: string, w: string)
    requires Blank(w) && Tight(x)
    ensures RStrip(x + w) == x
  {
    hide Space, TextEnd;
    RStripConcat(x, w);
    TextEndIs(x, |x|);
    assert x[..|x|] == x;
  }

  lemma TurnEndIsTight()
    ensures Tight(TURN_END)
  {
  }

  lemma NoAnswer(v: string, z: string)
    requires Blank(v) && Blank(z)
    ensures AnswerOf(LStrip(v), TURN_END) == "" && AnswerOf(LStrip(v + TURN_END + z), TURN_END) == ""
  {
    TurnEndIsTight();
    hide Space, TextStart, TextEnd, TURN_END, LStrip;
    FinalOfStrip(v, TURN_END);
    BlankHasNoAnswer(v, TURN_END);
    FinalOfStrip(v + TURN_END + z, TURN_END);
    StripTight(v, TURN_END, z);
    hide Strip;
    assert TURN_END[|TURN_END| - |TURN_END|..] == TURN_END && TURN_END[..0] == "";
  }

  lemma AnswerBeforeTurn(v: string, x: string, w: string, z: string)
    requires Blank(v) && Blank(w) && Blank(z) && Tight(x)
    ensures AnswerOf(LStrip(v + (x + w + TURN_END) + z), TURN_END) == x
  {
    TurnEndIsTight();
    hide Space, TextStart, TextEnd, TURN_END, LStrip, RStrip, Blank;
    var y := x + w + TURN_END;
    FinalOfStrip(v + y + z, TURN_END);
    assert Tight(y) by { assert y[0] == x[0] && y[|y| - 1] == TURN_END[|TURN_END| - 1]; }
    StripTight(v, y, z);
    assert y[|y| - |TURN_END|..] == TURN_END && y[..|y| - |TURN_END|] == x + w;
    RStripTight(x, w);
    hide Strip, Tight;
  }

  lemma AnswerAlone(v: string, x: string, z: string)
    requires Blank(v) && Blank(z) && Tight(x) && !EndsWith(x, TURN_END)
    ensures AnswerOf(LStrip(v + x + z), TURN_END) == x
  {
    hide Space, TextStart, TextEnd, TURN_END, LStrip, RStrip, Blank;
    FinalOfStrip(v + x + z, TURN_END);
    StripTight(v, x, z);
  }

  /** A turn marker at the end is dropped with the blanks around it; otherwise only blanks are. Nothing else is,
      and a final text with nothing else in it is no answer. */
  lemma AnswerIs(v: string, x: string, w: string, z: string)
    requires Blank(v) && Blank(w) && Blank(z)
    ensures Completed(LStrip(v), TURN_END) == Refused(NoFinalAnswer)
    ensures Completed(LStrip(v + TURN_END + z), TURN_END) == Refused(NoFinalAnswer)
    ensures Tight(x) ==> var o := Completed(LStrip(v + (x + w + TURN_END) + z), TURN_END); o.Answered? && o.answer == x
    ensures Tight(x) && !EndsWith(x, TURN_END) ==>
      var o := Completed(LStrip(v + x + z), TURN_END); o.Answered? && o.answer == x
  {
    hide Blank, EndsWith, AnswerOf, LStrip, Shown, TURN_END;
    NoAnswer(v, z);
    if Tight(x) {
      AnswerBeforeTurn(v, x, w, z);
      if !EndsWith(x, TURN_END) {
        AnswerAlone(v, x, z);
      }
    }
  }

  /** Every run that is not refused as unterminated is answered from its final text; with reasoning off that is
      the whole text. */
  lemma RunIsAnsweredFromFinal(reasoning: bool, deltas: seq<string>)
    ensures Parsed(reasoning, deltas) in {Refused(UnterminatedGemma), Refused(UnterminatedQwen)} ||
      Parsed(reasoning, deltas) == Completed(FinalAfter(reasoning, deltas), TURN_END)
    ensures !reasoning ==>
      && Parsed(reasoning, deltas) == Completed(LStrip(Concat(deltas)), TURN_END)
      && FinalAfter(reasoning, deltas) == LStrip(Concat(deltas))
      && ReasoningIn(reasoning, deltas) == Reasoning(NoFormat, 0)
  {
    hide CutOf, PhaseOf, Completed, LStrip, Concat, TURN_END, Find, RFind;
    if !reasoning {
      KeptCut(deltas, "", Some(0));
      assert Concat(deltas)[0..] == Concat(deltas) && Concat(deltas)[..0] == "";
      NoMarkerInEmpty();
    }
  }

  /** In JSON format the client is sent one object, written anew: the whole answer if it decodes, else the first
      object in it if that contains all others. */
  lemma JsonAnswer(d: Decoder, reasoning: bool, deltas: seq<string>)
    requires Parsed(reasoning, deltas).Answered?
    ensures var answer, o := Parsed(reasoning, deltas).answer, ParsedIn(Json(d), reasoning, deltas);
      match d.parse(answer)
      case Some(value) =>
        o == if value.Object? then Answered(d.write(value), d.write(value), false) else Refused(BadJson(NotAnObject))
      case None =>
        var cs := Candidates(d, answer, |answer|);
        o == if FirstCovers(cs) then Answered(d.write(cs[0].value), d.write(cs[0].value), true)
             else Refused(BadJson(NotOneObject))
  {
    var answer := Parsed(reasoning, deltas).answer;
    hide Parsed, Candidates, Maximal, FirstCovers;
    if d.parse(answer) == None {
      RecoveredExactlyWhenFirstCovers(d, answer);
    }
  }
}
