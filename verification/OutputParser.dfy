/** The streaming parser of LLM output: reasoning is cut off and the final text trimmed. In text format it
    is shown with a hold-back as long as the turn marker, in JSON format only at the end. */
module OutputParser {
  import opened Options
  import opened Strings
  import opened JsonRecovery

  const GEMMA_THOUGHT_START: string := "<|channel>thought"
  const GEMMA_THOUGHT_END: string := "<channel|>"
  const QWEN_THOUGHT_START: string := "<think>"
  const QWEN_THOUGHT_END: string := "</think>"
  const TURN_END: string := "<turn|>"

  datatype Phase = Detecting | Gemma | Qwen | Final

  datatype ReasoningFormat = NoFormat | GemmaFormat | QwenFormat

  /** What was cut off: its markers and the number of characters between them. */
  datatype Reasoning = Reasoning(format: ReasoningFormat, chars: nat)

  const NO_REASONING: Reasoning := Reasoning(NoFormat, 0)

  datatype Format = Text | Json(decoder: Decoder)

  datatype ParseError = UnterminatedGemma | UnterminatedQwen | NoFinalAnswer | BadJson(error: JsonError)

  /** `stream` is all the client was sent, the pending delta included. */
  datatype Outcome =
    | Answered(answer: string, stream: string, recovered: bool)
    | Refused(error: ParseError)

  // --- What a buffered text amounts to ---

  /** Where the final text starts in a buffered text, if its reasoning is complete. */
  function CutOf(text: string): (cut: Option<nat>)
    ensures cut.Some? ==> cut.value <= |text|
  {
    var start := Find(text, GEMMA_THOUGHT_START, 0);
    if start >= 0 then
      var end := Find(text, GEMMA_THOUGHT_END, start + |GEMMA_THOUGHT_START|);
      if end < 0 then None else Some(end + |GEMMA_THOUGHT_END|)
    else
      var end := RFind(text, QWEN_THOUGHT_END);
      if end < 0 then None else Some(end + |QWEN_THOUGHT_END|)
  }

  /** What kind of reasoning a buffered text is in. */
  function PhaseOf(text: string): (phase: Phase)
    ensures phase != Final
  {
    if Find(text, GEMMA_THOUGHT_START, 0) >= 0 then Gemma
    else if Find(text, QWEN_THOUGHT_START, 0) >= 0 then Qwen
    else Detecting
  }

  // A slice whose end is before its start is empty.
  function Between(s: string, i: nat, j: nat): string
    requires j <= |s|
  {
    if i <= j then s[i..j] else ""
  }

  /** The reasoning in a buffered text, once it is complete. */
  function ReasoningOf(text: string): Reasoning {
    var start := Find(text, GEMMA_THOUGHT_START, 0);
    if start >= 0 then
      var from := start + |GEMMA_THOUGHT_START|;
      var end := Find(text, GEMMA_THOUGHT_END, from);
      if end < 0 then NO_REASONING else Reasoning(GemmaFormat, |Strip(Between(text, from, end))|)
    else
      var end := RFind(text, QWEN_THOUGHT_END);
      if end < 0 then NO_REASONING
      else
        var think := Find(text, QWEN_THOUGHT_START, 0);
        var from := if 0 <= think < end then think + |QWEN_THOUGHT_START| else 0;
        Reasoning(QwenFormat, |Strip(Between(text, from, end))|)
  }

  /** The reasoning cut off in front of the final text. */
  function ReasoningAt(text: string, cut: Option<nat>): Reasoning
    requires cut.Some? ==> cut.value <= |text|
  {
    if cut.Some? then ReasoningOf(text[..cut.value]) else NO_REASONING
  }

  lemma NoMarkerInEmpty()
    ensures ReasoningOf("") == NO_REASONING
  {
  }

  // What follows a complete reasoning does not matter to it.
  lemma ReasoningAtCut(text: string)
    requires CutOf(text).Some?
    ensures ReasoningOf(text[..CutOf(text).value]) == ReasoningOf(text)
  {
    hide Find, RFind, Strip, GEMMA_THOUGHT_START, GEMMA_THOUGHT_END, QWEN_THOUGHT_START, QWEN_THOUGHT_END;
    var c := CutOf(text).value;
    var start := Find(text, GEMMA_THOUGHT_START, 0);
    FindInPrefix(text, c, GEMMA_THOUGHT_START, 0);
    if start >= 0 {
      var from := start + |GEMMA_THOUGHT_START|;
      FindInPrefix(text, c, GEMMA_THOUGHT_END, from);
      assert Between(text[..c], from, c - |GEMMA_THOUGHT_END|) == Between(text, from, c - |GEMMA_THOUGHT_END|);
    } else {
      var end := c - |QWEN_THOUGHT_END|;
      LastInPrefix(text, c, QWEN_THOUGHT_END);
      FindInPrefix(text, c, QWEN_THOUGHT_START, 0);
      var think := Find(text, QWEN_THOUGHT_START, 0);
      assert |QWEN_THOUGHT_START| <= |QWEN_THOUGHT_END| by { QwenMarkers(); }
      var from := if 0 <= think < end then think + |QWEN_THOUGHT_START| else 0;
      assert Between(text[..c], from, end) == Between(text, from, end);
    }
  }

  lemma QwenMarkers()
    ensures |QWEN_THOUGHT_START| <= |QWEN_THOUGHT_END|
  {
  }

  lemma LastInPrefix(text: string, p: nat, m: string)
    requires p <= |text| && RFind(text, m) >= 0 && RFind(text, m) + |m| == p
    ensures RFind(text[..p], m) == RFind(text, m)
  {
    hide RFind;
    OccursInPrefix(text, p, m, RFind(text, m));
    OccursInPrefix(text, p, m, RFind(text[..p], m));
  }

  // --- What a final text amounts to ---

  /** What has been sent of a final text: all but its last `hold` characters. */
  function Shown(final: string, hold: nat): (r: string)
    ensures r <= final
  {
    if |final| <= hold then "" else final[..|final| - hold]
  }

  function WithoutSuffix(text: string, marker: string): string {
    if EndsWith(text, marker) then RStrip(text[..|text| - |marker|]) else text
  }

  function AnswerOf(final: string, marker: string): string {
    WithoutSuffix(Strip(final), marker)
  }

  // A slice that starts behind the end is empty.
  function From(s: string, i: nat): string {
    if i <= |s| then s[i..] else ""
  }

  function Completed(final: string, marker: string): Outcome {
    var answer, shown := AnswerOf(final, marker), Shown(final, |marker|);
    if answer == "" then Refused(NoFinalAnswer) else Answered(answer, shown + From(answer, |shown|), false)
  }

  /** The outcome for a text whose final part starts at `cut`. */
  function OutcomeOf(text: string, cut: Option<nat>): Outcome
    requires cut.Some? ==> cut.value <= |text|
  {
    if cut.Some? then Completed(LStrip(text[cut.value..]), TURN_END)
    else
      match PhaseOf(text)
      case Gemma => Refused(UnterminatedGemma)
      case Qwen => Refused(UnterminatedQwen)
      case _ => Completed(LStrip(text), TURN_END)
  }

  /** In JSON format the answer is the one object in it, written anew, and sent as a whole. */
  function InFormat(format: Format, outcome: Outcome): Outcome {
    if format.Text? || outcome.Refused? then outcome
    else
      match Take(format.decoder, outcome.answer)
      case Rejected(error) => Refused(BadJson(error))
      case Taken(value, recovered) =>
        var written := format.decoder.write(value);
        Answered(written, written, recovered)
  }

  /** The final text an outcome is made from. */
  function FinalOf(text: string, cut: Option<nat>): string
    requires cut.Some? ==> cut.value <= |text|
  {
    LStrip(if cut.Some? then text[cut.value..] else text)
  }

  lemma LStripTwice(u: string)
    ensures LStrip(LStrip(u)) == LStrip(u)
  {
    hide Space;
  }

  lemma AnswerStartsFinal(u: string, marker: string)
    ensures AnswerOf(LStrip(u), marker) <= LStrip(u)
  {
  }

  lemma CompletedStream(u: string, marker: string)
    requires Completed(LStrip(u), marker).Answered?
    ensures var o := Completed(LStrip(u), marker);
      && o.answer <= LStrip(u) && o.answer <= o.stream
      && (o.stream == o.answer <==> |LStrip(u)| - |o.answer| <= |marker|)
  {
    AnswerStartsFinal(u, marker);
    hide AnswerOf, LStrip;
    var final := LStrip(u);
    var answer, shown := AnswerOf(final, marker), Shown(final, |marker|);
    if |shown| <= |answer| {
      assert shown <= answer;
      assert shown + answer[|shown|..] == answer;
    } else {
      assert answer <= shown;
      assert shown + "" == shown;
    }
  }

  // What is sent starts with the answer; how much more there is depends on the length of the trimmed tail.
  lemma StreamExtendsAnswer(text: string, cut: Option<nat>)
    requires cut.Some? ==> cut.value <= |text|
    requires OutcomeOf(text, cut).Answered?
    ensures var o := OutcomeOf(text, cut);
      && o.answer <= FinalOf(text, cut) && o.answer <= o.stream
      && (o.stream == o.answer <==> |FinalOf(text, cut)| - |o.answer| <= |TURN_END|)
  {
    hide Completed, LStrip, PhaseOf, TURN_END;
    CompletedStream(if cut.Some? then text[cut.value..] else text, TURN_END);
  }

  /** The trimmed tail fits the hold-back: a turn marker ends the text without a blank on either side of
      it, or there is none and the blanks at the end are no longer than it. */
  predicate TailFits(final: string) {
    var t := RStrip(final);
    if EndsWith(t, TURN_END) then
      t == final && (|t| > |TURN_END| ==> !Space(t[|t| - |TURN_END| - 1]))
    else
      |final| - |t| <= |TURN_END|
  }

  lemma RStripKeepsLength(u: string)
    ensures |RStrip(u)| == |u| <==> u == "" || !Space(u[|u| - 1])
  {
  }

  lemma TailIs(u: string)
    ensures |LStrip(u)| - |AnswerOf(LStrip(u), TURN_END)| <= |TURN_END| <==> TailFits(LStrip(u))
  {
    hide Space, LStrip, RStrip, TURN_END;
    LStripTwice(u);
    var t := RStrip(LStrip(u));
    if EndsWith(t, TURN_END) {
      RStripKeepsLength(t[..|t| - |TURN_END|]);
    }
  }

  /** The client is always sent the answer first, and nothing else if and only if the tail of the final text
      fits the hold-back. */
  lemma StreamIsAnswerExactlyWhen(text: string, cut: Option<nat>)
    requires cut.Some? ==> cut.value <= |text|
    requires OutcomeOf(text, cut).Answered?
    ensures var o := OutcomeOf(text, cut);
      && o.answer <= o.stream && o.answer <= FinalOf(text, cut)
      && (o.stream == o.answer <==> TailFits(FinalOf(text, cut)))
  {
    hide LStrip, PhaseOf, AnswerOf, TailFits, TURN_END;
    var u := if cut.Some? then text[cut.value..] else text;
    StreamExtendsAnswer(text, cut);
    TailIs(u);
  }

  /** A blank before the turn marker is more than the hold-back keeps: it is sent, but not in the answer. */
  lemma StreamCanExceedAnswer()
    ensures OutcomeOf("a <turn|>", Some(0)) == Answered("a", "a ", false)
  {
    var t := "a <turn|>";
    assert t[0..] == t;
    TextStartIs(t, 0);
    TextEndIs(t, 9);
    assert Strip(t) == t;
    assert t[9 - |TURN_END|..] == TURN_END && t[..2] == "a ";
    TextEndIs("a ", 1);
    assert "a "[..1] == "a";
    assert Shown(t, |TURN_END|) == "a ";
  }

  // --- The parser ---

  class GenerationOutputParser {
    const expectReasoning: bool
    const format: Format
    var phase: Phase
    var reasoningFormat: ReasoningFormat
    var reasoningChars: nat
    var reasoningBuffer: string
    var finalText: string
    var heldFinal: string
    var emittedFinal: string
    var finalStarted: bool
    // Everything fed and everything sent so far, and where the final text starts in it.
    ghost var fed: string
    ghost var sent: string
    ghost var cut: Option<nat>

    // Text is shown up to the hold-back, JSON not at all.
    ghost predicate Held()
      reads this
    {
      if format.Text? then emittedFinal == Shown(finalText, |TURN_END|) && emittedFinal + heldFinal == finalText
      else emittedFinal == "" && heldFinal == ""
    }

    ghost predicate Valid()
      reads this
    {
      && finalStarted == (finalText != "")
      && Held()
      && sent == emittedFinal
      && (phase == Final <==> cut.Some?)
      && (cut.Some? ==> cut.value <= |fed|)
      && Reasoning(reasoningFormat, reasoningChars) == ReasoningAt(fed, cut)
      && (cut.Some? ==> finalText == LStrip(fed[cut.value..]) && reasoningBuffer == "")
      && (cut.None? ==> finalText == "" && reasoningBuffer == fed && phase == PhaseOf(fed) && CutOf(fed) == None)
    }

    constructor (expectReasoning: bool, format: Format)
      ensures this.format == format
      ensures Valid() && fed == "" && sent == ""
      ensures cut == if expectReasoning then None else Some(0)
    {
      this.expectReasoning, this.format := expectReasoning, format;
      phase := if expectReasoning then Detecting else Final;
      reasoningBuffer, finalText, heldFinal, emittedFinal, finalStarted := "", "", "", "", false;
      reasoningFormat, reasoningChars := NoFormat, 0;
      fed, sent, cut := "", "", if expectReasoning then None else Some(0);
      NoMarkerInEmpty();
    }

    method AcceptFinal(text0: string) returns (emitted: string)
      requires finalStarted == (finalText != "")
      requires Held()
      modifies this`finalText, this`heldFinal, this`emittedFinal, this`finalStarted
      ensures finalText == if old(finalText) == "" then LStrip(text0) else old(finalText) + text0
      ensures finalStarted == (finalText != "")
      ensures Held()
      ensures emittedFinal == old(emittedFinal) + emitted
    {
      hide LStrip, Shown, TURN_END;
      if text0 == "" {
        return "";
      }
      var text := text0;
      if !finalStarted {
        text := LStrip(text);
        finalStarted := text != "";
      }
      if format.Text? {
        HoldBack(finalText, emittedFinal, heldFinal, text, |TURN_END|);
      }
      finalText := finalText + text;
      if format.Json? {
        return "";
      }
      heldFinal := heldFinal + text;
      if |heldFinal| <= |TURN_END| {
        return "";
      }
      emitted := heldFinal[..|heldFinal| - |TURN_END|];
      heldFinal := heldFinal[|heldFinal| - |TURN_END|..];
      emittedFinal := emittedFinal + emitted;
    }

    method Feed(delta: string) returns (emitted: string)
      requires Valid()
      modifies this
      ensures Valid() && fed == old(fed) + delta && sent == old(sent) + emitted
      ensures cut == if old(cut).Some? || delta == "" then old(cut) else CutOf(fed)
    {
      hide LStrip, Shown, CutOf, PhaseOf, TURN_END;
      if delta == "" {
        return "";
      }
      if phase == Final {
        emitted := FeedFinal(delta);
      } else {
        emitted := FeedReasoning(delta);
      }
    }

    method FeedFinal(delta: string) returns (emitted: string)
      requires Valid() && cut.Some?
      modifies this
      ensures Valid() && fed == old(fed) + delta && sent == old(sent) + emitted
      ensures cut == old(cut)
    {
      hide LStrip, Shown, CutOf, PhaseOf, ReasoningOf, TURN_END;
      LStripConcat(fed[cut.value..], delta);
      assert (fed + delta)[..cut.value] == fed[..cut.value];
      assert (fed + delta)[cut.value..] == fed[cut.value..] + delta;
      fed := fed + delta;
      emitted := AcceptFinal(delta);
      sent := sent + emitted;
    }

    method FeedReasoning(delta: string) returns (emitted: string)
      requires Valid() && cut.None?
      modifies this
      ensures Valid() && fed == old(fed) + delta && sent == old(sent) + emitted
      ensures cut == CutOf(fed)
    {
      hide LStrip, Shown, CutOf, PhaseOf, ReasoningOf, TURN_END;
      PhaseGrows(reasoningBuffer, delta);
      reasoningBuffer := reasoningBuffer + delta;
      fed := fed + delta;
      var final := CutReasoning();
      if final.None? {
        return "";
      }
      cut := CutOf(fed);
      ReasoningAtCut(fed);
      reasoningBuffer := "";
      phase := Final;
      emitted := AcceptFinal(final.value);
      sent := sent + emitted;
    }

    // The final text behind a complete reasoning, if the buffer has one; otherwise the phase is noted.
    method CutReasoning() returns (final: Option<string>)
      requires PhaseOf(reasoningBuffer) == Detecting ==> phase == Detecting
      requires PhaseOf(reasoningBuffer) == Qwen ==> phase != Gemma
      modifies this`phase, this`reasoningFormat, this`reasoningChars
      ensures final == match CutOf(reasoningBuffer)
        case None => None
        case Some(start) => Some(reasoningBuffer[start..])
      ensures final.Some? ==> Reasoning(reasoningFormat, reasoningChars) == ReasoningOf(reasoningBuffer)
      ensures final.None? ==>
        && phase == PhaseOf(reasoningBuffer)
        && reasoningFormat == old(reasoningFormat) && reasoningChars == old(reasoningChars)
    {
      hide RStrip, Strip, Between, Find, RFind, GEMMA_THOUGHT_START, GEMMA_THOUGHT_END, QWEN_THOUGHT_START,
        QWEN_THOUGHT_END;
      var gemmaStart := Find(reasoningBuffer, GEMMA_THOUGHT_START, 0);
      if gemmaStart >= 0 {
        var reasoningStart := gemmaStart + |GEMMA_THOUGHT_START|;
        var gemmaEnd := Find(reasoningBuffer, GEMMA_THOUGHT_END, reasoningStart);
        if gemmaEnd < 0 {
          phase := Gemma;
          return None;
        }
        reasoningFormat, reasoningChars := GemmaFormat, |Strip(Between(reasoningBuffer, reasoningStart, gemmaEnd))|;
        return Some(reasoningBuffer[gemmaEnd + |GEMMA_THOUGHT_END|..]);
      }
      var qwenEnd := RFind(reasoningBuffer, QWEN_THOUGHT_END);
      if qwenEnd >= 0 {
        var qwenStart := Find(reasoningBuffer, QWEN_THOUGHT_START, 0);
        var reasoningStart := if 0 <= qwenStart < qwenEnd then qwenStart + |QWEN_THOUGHT_START| else 0;
        reasoningFormat, reasoningChars := QwenFormat, |Strip(Between(reasoningBuffer, reasoningStart, qwenEnd))|;
        return Some(reasoningBuffer[qwenEnd + |QWEN_THOUGHT_END|..]);
      }
      if Find(reasoningBuffer, QWEN_THOUGHT_START, 0) >= 0 {
        phase := Qwen;
      }
      final := None;
    }

    // Without any marker everything buffered is final text.
    method ShowAll() returns (finishEmitted: string)
      requires Valid() && phase == Detecting
      modifies this`phase, this`reasoningBuffer, this`finalText, this`heldFinal, this`emittedFinal, this`finalStarted
      ensures finalText == LStrip(fed) && Held() && finishEmitted == emittedFinal && sent == ""
    {
      hide LStrip, Shown, CutOf, PhaseOf, TURN_END;
      phase := Final;
      finishEmitted := AcceptFinal(reasoningBuffer);
      reasoningBuffer := "";
    }

    method TrimmedFinal() returns (answer: string)
      ensures answer == AnswerOf(finalText, TURN_END)
    {
      hide LStrip, RStrip, TURN_END;
      answer := Strip(finalText);
      if EndsWith(answer, TURN_END) {
        answer := RStrip(answer[..|answer| - |TURN_END|]);
      }
    }

    /** The end of the text: an error, or the answer and what the client has not been sent yet. */
    method Finish() returns (error: Option<ParseError>, answer: string, pendingDelta: string, jsonRecovered: bool)
      requires Valid()
      modifies this
      ensures Reasoning(reasoningFormat, reasoningChars) == ReasoningAt(old(fed), old(cut))
      ensures InFormat(format, OutcomeOf(old(fed), old(cut))) ==
        if error.Some? then Refused(error.value) else Answered(answer, old(sent) + pendingDelta, jsonRecovered)
    {
      hide LStrip, Shown, CutOf, PhaseOf, ReasoningAt, AnswerOf, Take, TURN_END;
      if phase == Gemma {
        return Some(UnterminatedGemma), "", "", false;
      }
      if phase == Qwen {
        return Some(UnterminatedQwen), "", "", false;
      }
      var finishEmitted := "";
      if phase == Detecting {
        finishEmitted := ShowAll();
      }
      answer := TrimmedFinal();
      if answer == "" {
        return Some(NoFinalAnswer), "", "", false;
      }
      error, jsonRecovered := None, false;
      if format.Json? {
        var taken := TakeAnswer(format.decoder, answer);
        if taken.Rejected? {
          return Some(BadJson(taken.error)), "", "", false;
        }
        jsonRecovered := taken.recovered;
        answer := format.decoder.write(taken.value);
      }
      pendingDelta := if format.Json? then answer else finishEmitted + From(answer, |emittedFinal|);
    }
  }

  lemma HoldBack(final: string, emitted: string, held: string, text: string, hold: nat)
    requires emitted == Shown(final, hold) && emitted + held == final
    ensures var more := held + text; var cut := if |more| <= hold then 0 else |more| - hold;
      && emitted + more[..cut] == Shown(final + text, hold)
      && emitted + more[..cut] + more[cut..] == final + text
      && emitted + more == final + text
      && emitted + more[..0] == emitted
  {
    var more := held + text;
    var cut := if |more| <= hold then 0 else |more| - hold;
    assert emitted + more == final + text;
    assert more == more[..cut] + more[cut..];
    assert (emitted + more[..cut]) + more[cut..] == emitted + (more[..cut] + more[cut..]);
    assert |final + text| - hold > 0 ==> (final + text)[..|final + text| - hold] == emitted + more[..cut];
  }

  // Markers that have been seen stay in the buffer.
  lemma PhaseGrows(text: string, delta: string)
    ensures PhaseOf(text + delta) == Detecting ==> PhaseOf(text) == Detecting
    ensures PhaseOf(text + delta) == Qwen ==> PhaseOf(text) != Gemma
  {
    hide Find, GEMMA_THOUGHT_START, QWEN_THOUGHT_START;
    assert (text + delta)[..|text|] == text;
    FindInPrefix(text + delta, |text|, GEMMA_THOUGHT_START, 0);
    FindInPrefix(text + delta, |text|, QWEN_THOUGHT_START, 0);
  }
}
