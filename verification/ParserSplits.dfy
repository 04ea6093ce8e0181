/** When the parser's result depends only on the text, and not on how it arrived in pieces. */
module ParserSplits {
  import opened Options
  import opened Strings
  import opened OutputParser

  function Concat(deltas: seq<string>): string {
    if deltas == [] then "" else deltas[0] + Concat(deltas[1..])
  }

  /** Where the final text starts once the pieces have been fed after `fed`. */
  function CutAfter(deltas: seq<string>, fed: string, cut: Option<nat>): Option<nat>
    decreases |deltas|
  {
    if deltas == [] then cut
    else
      var now := fed + deltas[0];
      CutAfter(deltas[1..], now, if cut.Some? || deltas[0] == "" then cut else CutOf(now))
  }

  lemma {:induction false} CutInside(deltas: seq<string>, fed: string, cut: Option<nat>)
    requires cut.Some? ==> cut.value <= |fed|
    ensures var c := CutAfter(deltas, fed, cut); c.Some? ==> c.value <= |fed + Concat(deltas)|
    decreases |deltas|
  {
    hide CutOf;
    if deltas != [] {
      var now := fed + deltas[0];
      CutInside(deltas[1..], now, if cut.Some? || deltas[0] == "" then cut else CutOf(now));
      assert |Concat(deltas)| == |deltas[0]| + |Concat(deltas[1..])|;
    }
  }

  function FirstCut(reasoning: bool): Option<nat> {
    if reasoning then None else Some(0)
  }

  /** The parser's whole run: feed every piece, then finish. */
  ghost function Parsed(reasoning: bool, deltas: seq<string>): Outcome {
    CutInside(deltas, "", FirstCut(reasoning));
    assert "" + Concat(deltas) == Concat(deltas);
    OutcomeOf(Concat(deltas), CutAfter(deltas, "", FirstCut(reasoning)))
  }

  /** The final text of that run. */
  ghost function FinalAfter(reasoning: bool, deltas: seq<string>): string {
    CutInside(deltas, "", FirstCut(reasoning));
    assert "" + Concat(deltas) == Concat(deltas);
    FinalOf(Concat(deltas), CutAfter(deltas, "", FirstCut(reasoning)))
  }

  /** The reasoning it cut off. */
  ghost function ReasoningIn(reasoning: bool, deltas: seq<string>): Reasoning {
    CutInside(deltas, "", FirstCut(reasoning));
    assert "" + Concat(deltas) == Concat(deltas);
    ReasoningAt(Concat(deltas), CutAfter(deltas, "", FirstCut(reasoning)))
  }

  ghost function ParsedIn(format: Format, reasoning: bool, deltas: seq<string>): Outcome {
    InFormat(format, Parsed(reasoning, deltas))
  }

  lemma OneMore(deltas: seq<string>, i: nat, fed: string, cut: Option<nat>)
    requires i < |deltas|
    ensures fed + Concat(deltas[i..]) == fed + deltas[i] + Concat(deltas[i + 1..])
    ensures CutAfter(deltas[i..], fed, cut) ==
      CutAfter(deltas[i + 1..], fed + deltas[i], if cut.Some? || deltas[i] == "" then cut else CutOf(fed + deltas[i]))
  {
  }

  lemma NoMore(deltas: seq<string>, fed: string, cut: Option<nat>)
    ensures fed + Concat(deltas[|deltas|..]) == fed && CutAfter(deltas[|deltas|..], fed, cut) == cut
  {
    assert fed + "" == fed;
  }

  /** The generation loop: `stream` is the concatenation of everything sent to the client. */
  method ParseAll(reasoning: bool, format: Format, deltas: seq<string>)
    returns (error: Option<ParseError>, answer: string, stream: string, jsonRecovered: bool, cutOff: Reasoning)
    ensures cutOff == ReasoningIn(reasoning, deltas)
    ensures ParsedIn(format, reasoning, deltas) ==
      if error.Some? then Refused(error.value) else Answered(answer, stream, jsonRecovered)
  {
    hide CutOf, OutcomeOf, InFormat, ReasoningAt, Concat, CutAfter, GenerationOutputParser.Valid;
    var parser := new GenerationOutputParser(reasoning, format);
    stream := "";
    var i := 0;
    assert deltas[0..] == deltas && "" + Concat(deltas) == Concat(deltas);
    while i < |deltas|
      invariant 0 <= i <= |deltas|
      invariant fresh(parser) && parser.Valid() && parser.sent == stream
      invariant parser.fed + Concat(deltas[i..]) == Concat(deltas)
      invariant CutAfter(deltas[i..], parser.fed, parser.cut) == CutAfter(deltas, "", FirstCut(reasoning))
    {
      OneMore(deltas, i, parser.fed, parser.cut);
      var emitted := parser.Feed(deltas[i]);
      stream := stream + emitted;
      i := i + 1;
    }
    NoMore(deltas, parser.fed, parser.cut);
    var pending: string;
    error, answer, pending, jsonRecovered := parser.Finish();
    stream := stream + pending;
    cutOff := Reasoning(parser.reasoningFormat, parser.reasoningChars);
  }

  // --- What is sent, and the answer ---

  /** In a run the client is sent exactly the answer if and only if the tail of the final text fits the
      hold-back. */
  lemma RunSendsAnswerExactlyWhen(reasoning: bool, deltas: seq<string>)
    requires Parsed(reasoning, deltas).Answered?
    ensures var o := Parsed(reasoning, deltas); o.stream == o.answer <==> TailFits(FinalAfter(reasoning, deltas))
  {
    hide CutOf, OutcomeOf, TailFits, FinalOf;
    CutInside(deltas, "", FirstCut(reasoning));
    assert "" + Concat(deltas) == Concat(deltas);
    StreamIsAnswerExactlyWhen(Concat(deltas), CutAfter(deltas, "", FirstCut(reasoning)));
  }

  /** A run that sends more than the answer: the blank before the turn marker is already out. */
  lemma RunCanSendMore()
    ensures Parsed(false, ["a <turn|>"]) == Answered("a", "a ", false)
  {
    hide OutcomeOf, CutOf;
    StreamCanExceedAnswer();
    var t := "a <turn|>";
    KeptCut([t], "", Some(0));
    assert [t][1..] == [] && t + "" == t;
    assert Concat([t]) == t;
  }

  /** The result depends on the text alone. */
  ghost predicate IndependentOfSplit(format: Format, reasoning: bool, text: string) {
    forall a: seq<string>, b: seq<string> :: Concat(a) == text && Concat(b) == text ==>
      && ParsedIn(format, reasoning, a) == ParsedIn(format, reasoning, b)
      && ReasoningIn(reasoning, a) == ReasoningIn(reasoning, b)
  }

  /** No end marker of the second kind; or the first kind starts before its end; or exactly one of the
      second kind and nothing of the first. */
  predicate Unambiguous(text: string) {
    var close := Find(text, QWEN_THOUGHT_END, 0);
    var open := Find(text, GEMMA_THOUGHT_START, 0);
    || close < 0
    || (open >= 0 && open + |GEMMA_THOUGHT_START| <= close + |QWEN_THOUGHT_END|)
    || (open < 0 && RFind(text, QWEN_THOUGHT_END) == close)
  }

  // --- Unambiguous texts ---

  lemma NoOccurrenceInPrefix(text: string, p: nat, m: string)
    requires p <= |text|
    ensures RFind(text[..p], m) < 0 <==> Find(text[..p], m, 0) < 0
    ensures Find(text, m, 0) >= 0 && RFind(text, m) == Find(text, m, 0) ==>
      RFind(text[..p], m) == if Find(text, m, 0) + |m| <= p then Find(text, m, 0) else -1
  {
    hide Find, RFind;
    var f := RFind(text[..p], m);
    assert f >= 0 ==> Occurs(text[..p], m, f);
    FindInPrefix(text, p, m, 0);
    OccursInPrefix(text, p, m, f);
    OccursInPrefix(text, p, m, Find(text, m, 0));
  }

  /** Every prefix cuts like the whole text, or not yet. */
  lemma CutIsStable(text: string, p: nat)
    requires Unambiguous(text) && p <= |text|
    ensures CutOf(text[..p]) == None || CutOf(text[..p]) == CutOf(text)
  {
    hide Find, RFind, GEMMA_THOUGHT_START, GEMMA_THOUGHT_END, QWEN_THOUGHT_END;
    var open := Find(text, GEMMA_THOUGHT_START, 0);
    FindInPrefix(text, p, GEMMA_THOUGHT_START, 0);
    FindInPrefix(text, p, QWEN_THOUGHT_END, 0);
    NoOccurrenceInPrefix(text, p, QWEN_THOUGHT_END);
    if open >= 0 {
      FindInPrefix(text, p, GEMMA_THOUGHT_END, open + |GEMMA_THOUGHT_START|);
    }
  }

  lemma {:induction false} StableCut(text: string, deltas: seq<string>, fed: string, cut: Option<nat>)
    requires Unambiguous(text) && fed + Concat(deltas) == text
    requires cut == CutOf(text) || (cut == None && CutOf(fed) == None)
    ensures CutAfter(deltas, fed, cut) == CutOf(text)
    decreases |deltas|
  {
    hide CutOf, Unambiguous;
    if deltas == [] {
      assert fed + "" == fed;
    } else {
      var now := fed + deltas[0];
      assert now + Concat(deltas[1..]) == text;
      assert text[..|now|] == now;
      CutIsStable(text, |now|);
      assert deltas[0] == "" ==> now == fed;
      StableCut(text, deltas[1..], now, if cut.Some? || deltas[0] == "" then cut else CutOf(now));
    }
  }

  lemma {:induction false} KeptCut(deltas: seq<string>, fed: string, cut: Option<nat>)
    requires cut.Some?
    ensures CutAfter(deltas, fed, cut) == cut
    decreases |deltas|
  {
    if deltas != [] {
      KeptCut(deltas[1..], fed + deltas[0], cut);
    }
  }

  /** With reasoning off the pieces never matter. */
  lemma PlainIsIndependent(format: Format, text: string)
    ensures IndependentOfSplit(format, false, text)
  {
    hide OutcomeOf, InFormat, ReasoningAt;
    forall a: seq<string> ensures CutAfter(a, "", Some(0)) == Some(0) {
      KeptCut(a, "", Some(0));
    }
  }

  lemma EmptyHasNoCut()
    ensures CutOf("") == None
  {
  }

  /** An unambiguous text has one result however it is split, in either format. */
  lemma UnambiguousIsIndependent(format: Format, text: string)
    requires Unambiguous(text)
    ensures IndependentOfSplit(format, true, text)
  {
    hide OutcomeOf, InFormat, ReasoningAt, CutOf, Unambiguous;
    EmptyHasNoCut();
    forall a: seq<string> | Concat(a) == text ensures CutAfter(a, "", None) == CutOf(text) {
      assert "" + Concat(a) == text;
      StableCut(text, a, "", None);
    }
  }

  // --- Ambiguous texts ---

  lemma OccursChars(text: string, m: string, i: int)
    requires Occurs(text, m, i)
    ensures forall j :: i <= j < i + |m| ==> text[j] == m[j - i]
  {
    assert m == text[i..i + |m|];
  }

  lemma TurnEndChars()
    ensures forall k :: 0 <= k < |TURN_END| - 1 ==> !Space(TURN_END[k]) && TURN_END[k] != '>'
  {
  }

  // Text in front that ends in a blank or in '>' cannot complete a turn marker.
  lemma TurnEndStaysWhole(p: string, x: string)
    requires p != "" && x != "" && (Space(p[|p| - 1]) || p[|p| - 1] == '>')
    ensures EndsWith(p + x, TURN_END) <==> EndsWith(x, TURN_END)
  {
    hide Space;
    TurnEndChars();
    hide TURN_END;
    var t := p + x;
    var from := |t| - |TURN_END|;
    if |x| >= |TURN_END| {
      assert t[from..] == x[|x| - |TURN_END|..];
    } else if from >= 0 {
      assert t[|p| - 1] == p[|p| - 1];
      assert t[from..][|p| - 1 - from] == t[|p| - 1];
    }
  }

  lemma LongerFinalLongerAnswer(p: string, x: string)
    requires p != "" && x != "" && (Space(p[|p| - 1]) || p[|p| - 1] == '>')
    requires WithoutSuffix(x, TURN_END) != ""
    ensures |WithoutSuffix(p + x, TURN_END)| > |WithoutSuffix(x, TURN_END)|
  {
    hide TURN_END, Space, RStrip;
    TurnEndStaysWhole(p, x);
    if EndsWith(x, TURN_END) {
      WithoutEnd(p, x, |TURN_END|);
      RStripConcat(p, x[..|x| - |TURN_END|]);
    }
  }

  lemma WithoutEnd(p: string, x: string, n: nat)
    requires n <= |x|
    ensures (p + x)[..|p + x| - n] == p + x[..|x| - n]
  {
  }

  lemma StripSplits(u: string)
    ensures RStrip(u) == (if Blank(u) then "" else u[..TextStart(u)] + Strip(u))
  {
    hide Space, TextStart, TextEnd;
    assert u == u[..TextStart(u)] + LStrip(u);
    RStripConcat(u[..TextStart(u)], LStrip(u));
  }

  lemma LastOf(a: string, b: string)
    requires a != ""
    ensures (a + b)[|a + b| - 1] == if b == "" then a[|a| - 1] else b[|b| - 1]
  {
  }

  lemma Associative(a: string, b: string, c: string)
    ensures a + (b + c) == a + b + c
  {
  }

  lemma FrontOf(v: string, u: string)
    requires v != "" && !Space(v[|v| - 1])
    ensures LStrip(v) != "" && LStrip(v)[|LStrip(v)| - 1] == v[|v| - 1] && !Blank(v)
    ensures u[..TextStart(u)] != "" ==> Space(u[..TextStart(u)][TextStart(u) - 1])
  {
    hide Space;
  }

  // Stripping a text with something in front.
  lemma StripWithFront(v: string, u: string) returns (p: string)
    requires v != "" && v[|v| - 1] == '>' && !Blank(u)
    ensures p != "" && (Space(p[|p| - 1]) || p[|p| - 1] == '>')
    ensures Strip(v + u) == p + Strip(u)
  {
    NotSpace();
    FrontOf(v, u);
    LStripConcat(v, u);
    RStripConcat(LStrip(v), u);
    StripSplits(u);
    hide Space, TextStart, TextEnd, LStrip, RStrip, Blank;
    var front, blanks := LStrip(v), u[..TextStart(u)];
    p := front + blanks;
    LastOf(front, blanks);
    Associative(front, blanks, Strip(u));
  }

  lemma NotSpace()
    ensures !Space('>') && !Space('<') && !Space('t')
  {
  }

  lemma FinalOfStrip(u: string, marker: string)
    ensures AnswerOf(LStrip(u), marker) == WithoutSuffix(Strip(u), marker)
  {
    LStripTwice(u);
  }

  // A front that ends in '>' makes a different answer, if there is one without it.
  lemma FrontShows(v: string, u: string)
    requires v != "" && v[|v| - 1] == '>' && Completed(LStrip(u), TURN_END).Answered?
    ensures AnswerOf(LStrip(v + u), TURN_END) != AnswerOf(LStrip(u), TURN_END)
  {
    hide Space, TURN_END, LStrip, RStrip, WithoutSuffix, TextStart;
    FinalOfStrip(u, TURN_END);
    FinalOfStrip(v + u, TURN_END);
    if Strip(u) == "" || Blank(u) {
      BlankHasNoAnswer(u, TURN_END);
    } else {
      var p := StripWithFront(v, u);
      LongerFinalLongerAnswer(p, Strip(u));
    }
  }

  lemma BlankHasNoAnswer(u: string, marker: string)
    requires Strip(u) == "" || Blank(u)
    ensures AnswerOf(LStrip(u), marker) == ""
  {
  }

  // What contains a long marker has an answer.
  lemma MarkerIsAnswered(u: string, m: string, i: nat)
    requires Occurs(u, m, i) && |m| > |TURN_END| && !Space(m[0]) && !Space(m[|m| - 1])
    ensures Completed(LStrip(u), TURN_END).Answered?
  {
  }

  lemma OccursLater(text: string, m: string, i: nat, from: nat)
    requires Occurs(text, m, i) && from <= i
    ensures Occurs(text[from..], m, i - from)
  {
    assert text[from..][i - from..i - from + |m|] == text[i..i + |m|];
  }

  // '<' only starts a marker, so another marker cannot begin inside one.
  lemma MarkersDoNotOverlap(text: string, a: string, i: nat, b: string, j: nat)
    requires Occurs(text, a, i) && Occurs(text, b, j) && i < j
    requires b != [] && b[0] == '<' && forall k :: 0 < k < |a| ==> a[k] != '<'
    ensures i + |a| <= j
  {
    OccursChars(text, a, i);
    OccursChars(text, b, j);
    assert text[j] == '<';
  }

  lemma MarkerShapes()
    ensures forall k :: 0 < k < |QWEN_THOUGHT_END| ==> QWEN_THOUGHT_END[k] != '<'
    ensures forall k :: 0 < k < |GEMMA_THOUGHT_START| ==> GEMMA_THOUGHT_START[k] != '<'
    ensures QWEN_THOUGHT_END[0] == '<' && GEMMA_THOUGHT_START[0] == '<' && GEMMA_THOUGHT_START[1] != QWEN_THOUGHT_END[1]
    ensures |QWEN_THOUGHT_END| == 8 && |GEMMA_THOUGHT_START| == 17 && |TURN_END| == 7 && |GEMMA_THOUGHT_END| > 0
    ensures QWEN_THOUGHT_END[7] == '>' && GEMMA_THOUGHT_END[|GEMMA_THOUGHT_END| - 1] == '>'
    ensures GEMMA_THOUGHT_START[16] == 't'
  {
  }

  // In an ambiguous text something else follows the first end marker of the second kind.
  lemma MarkerFollows(text: string) returns (m: string, i: nat)
    requires !Unambiguous(text)
    ensures var e := Find(text, QWEN_THOUGHT_END, 0) + |QWEN_THOUGHT_END|;
      && 0 < e <= |text| && Find(text, QWEN_THOUGHT_END, 0) >= 0 && Occurs(text[e..], m, i)
      && |m| > |TURN_END| && !Space(m[0]) && !Space(m[|m| - 1])
    ensures var e := Find(text, QWEN_THOUGHT_END, 0) + |QWEN_THOUGHT_END|;
      CutOf(text).Some? ==> CutOf(text).value > e && text[CutOf(text).value - 1] == '>'
    ensures var e := Find(text, QWEN_THOUGHT_END, 0) + |QWEN_THOUGHT_END|; CutOf(text[..e]) == Some(e)
    ensures CutOf(text) == None ==> PhaseOf(text) == Gemma
  {
    MarkerShapes();
    NotSpace();
    hide Find, RFind, Space, QWEN_THOUGHT_END, GEMMA_THOUGHT_START, GEMMA_THOUGHT_END, TURN_END;
    var q := Find(text, QWEN_THOUGHT_END, 0);
    var e := q + |QWEN_THOUGHT_END|;
    var open := Find(text, GEMMA_THOUGHT_START, 0);
    FirstCutIsQwen(text);
    if open >= 0 {
      GemmaAfterQwen(text, open, q);
      OccursLater(text, GEMMA_THOUGHT_START, open, e);
      m, i := GEMMA_THOUGHT_START, open - e;
      var end := Find(text, GEMMA_THOUGHT_END, open + |GEMMA_THOUGHT_START|);
      if end >= 0 {
        assert text[end..end + |GEMMA_THOUGHT_END|][|GEMMA_THOUGHT_END| - 1] == text[end + |GEMMA_THOUGHT_END| - 1];
      }
    } else {
      var last := RFind(text, QWEN_THOUGHT_END);
      MarkersDoNotOverlap(text, QWEN_THOUGHT_END, q, QWEN_THOUGHT_END, last);
      OccursLater(text, QWEN_THOUGHT_END, last, e);
      m, i := QWEN_THOUGHT_END, last - e;
      assert text[last..last + |QWEN_THOUGHT_END|][7] == text[last + 7];
    }
  }

  lemma GemmaAfterQwen(text: string, open: nat, q: nat)
    requires Occurs(text, GEMMA_THOUGHT_START, open) && Occurs(text, QWEN_THOUGHT_END, q)
    requires open + |GEMMA_THOUGHT_START| > q + |QWEN_THOUGHT_END|
    ensures open >= q + |QWEN_THOUGHT_END|
  {
    MarkerShapes();
    hide QWEN_THOUGHT_END, GEMMA_THOUGHT_START;
    OccursChars(text, GEMMA_THOUGHT_START, open);
    OccursChars(text, QWEN_THOUGHT_END, q);
    assert text[open + 1] == GEMMA_THOUGHT_START[1] && text[q + 1] == QWEN_THOUGHT_END[1];
    if open < q {
      MarkersDoNotOverlap(text, GEMMA_THOUGHT_START, open, QWEN_THOUGHT_END, q);
    } else if open > q {
      MarkersDoNotOverlap(text, QWEN_THOUGHT_END, q, GEMMA_THOUGHT_START, open);
    }
  }

  lemma FirstCutIsQwen(text: string)
    requires !Unambiguous(text)
    ensures var e := Find(text, QWEN_THOUGHT_END, 0) + |QWEN_THOUGHT_END|;
      0 <= e <= |text| && CutOf(text[..e]) == Some(e)
  {
    MarkerShapes();
    hide Find, RFind, Occurs, QWEN_THOUGHT_END, GEMMA_THOUGHT_START, GEMMA_THOUGHT_END, EndsWith;
    var q := Find(text, QWEN_THOUGHT_END, 0);
    var e := q + |QWEN_THOUGHT_END|;
    CutText(text, QWEN_THOUGHT_END, q);
    FirstIsLast(text, QWEN_THOUGHT_END);
    FindInPrefix(text, e, GEMMA_THOUGHT_START, 0);
    assert Find(text[..e], GEMMA_THOUGHT_START, 0) == -1 && RFind(text[..e], QWEN_THOUGHT_END) == q;
  }

  lemma FirstIsLast(text: string, m: string)
    requires Find(text, m, 0) >= 0
    ensures RFind(text[..Find(text, m, 0) + |m|], m) == Find(text, m, 0)
  {
    hide Find, RFind;
    var q := Find(text, m, 0);
    var last := RFind(text[..q + |m|], m);
    OccursInPrefix(text, q + |m|, m, q);
    OccursInPrefix(text, q + |m|, m, last);
  }

  /** Feeding an ambiguous text at once, or in two pieces that meet behind its first end marker, gives
      different answers. */
  lemma AmbiguousDependsOnSplit(text: string) returns (front: string, back: string)
    requires !Unambiguous(text)
    ensures front + back == text && EndsWith(front, QWEN_THOUGHT_END)
    ensures Parsed(true, [text]) != Parsed(true, [front, back])
  {
    var m, i := MarkerFollows(text);
    hide *;
    var q: nat := Find(text, QWEN_THOUGHT_END, 0);
    var e := q + |QWEN_THOUGHT_END|;
    CutText(text, QWEN_THOUGHT_END, q);
    front, back := text[..e], text[e..];
    OnePiece(text);
    TwoPieces(front, back);
    OutcomesDiffer(text, e, m, i);
  }

  lemma CutText(text: string, m: string, q: nat)
    requires Occurs(text, m, q) && m != ""
    ensures var e := q + |m|; e <= |text| && text[..e] != "" && text[..e] + text[e..] == text && EndsWith(text[..e], m)
  {
    assert text[..q + |m|][q..] == text[q..q + |m|];
  }

  // Cut behind the first end marker there is an answer, and not the one of the whole text.
  lemma OutcomesDiffer(text: string, e: nat, m: string, i: nat)
    requires e <= |text| && Occurs(text[e..], m, i) && |m| > |TURN_END| && !Space(m[0]) && !Space(m[|m| - 1])
    requires CutOf(text).Some? ==> CutOf(text).value > e && text[CutOf(text).value - 1] == '>'
    requires CutOf(text) == None ==> PhaseOf(text) == Gemma
    ensures OutcomeOf(text, CutOf(text)) != OutcomeOf(text, Some(e))
  {
    hide Space, TURN_END, PhaseOf, CutOf, LStrip, AnswerOf, Occurs;
    MarkerIsAnswered(text[e..], m, i);
    if CutOf(text).Some? {
      var c := CutOf(text).value;
      assert text[e..] == text[e..c] + text[c..];
      assert text[e..c][c - e - 1] == text[c - 1];
      if Completed(LStrip(text[c..]), TURN_END).Answered? {
        FrontShows(text[e..c], text[c..]);
      }
    }
  }

  lemma OnePiece(text: string)
    requires text != ""
    ensures Concat([text]) == text && Parsed(true, [text]) == OutcomeOf(text, CutOf(text))
  {
    hide CutOf, OutcomeOf;
    assert [text][1..] == [] && text + "" == text && "" + text == text;
    assert CutAfter([text], "", None) == CutAfter([], text, CutOf(text));
  }

  lemma TwoPieces(front: string, back: string)
    requires front != "" && CutOf(front).Some?
    ensures Concat([front, back]) == front + back
    ensures CutOf(front).value <= |front + back| && Parsed(true, [front, back]) == OutcomeOf(front + back, CutOf(front))
  {
    hide CutOf, OutcomeOf;
    assert [front, back][1..] == [back] && [back][1..] == [] && back + "" == back && "" + front == front;
    assert Concat([back]) == back;
    KeptCut([back], front, CutOf(front));
  }

  /** With reasoning on, the result in text format depends on the text alone exactly for the unambiguous texts. */
  lemma IndependentExactlyWhenUnambiguous(text: string)
    ensures IndependentOfSplit(Text, true, text) <==> Unambiguous(text)
  {
    hide Unambiguous, Parsed, ReasoningIn;
    if Unambiguous(text) {
      UnambiguousIsIndependent(Text, text);
    } else {
      var front, back := AmbiguousDependsOnSplit(text);
      assert Concat([text]) == text && Concat([front, back]) == text by {
        assert [text][1..] == [] && [front, back][1..] == [back] && [back][1..] == [];
        assert Concat([back]) == back;
      }
    }
  }

  /** There are such texts: two end markers are enough. */
  lemma AmbiguousExample()
    ensures !Unambiguous(QWEN_THOUGHT_END + QWEN_THOUGHT_END)
  {
    MarkerShapes();
    hide QWEN_THOUGHT_END, GEMMA_THOUGHT_START;
    var t := QWEN_THOUGHT_END + QWEN_THOUGHT_END;
    assert Occurs(t, QWEN_THOUGHT_END, 0) && Occurs(t, QWEN_THOUGHT_END, |QWEN_THOUGHT_END|);
  }
}
