/** How an answer in JSON format is taken: as it stands, or from the one object it contains. The decoder
    of the library is a parameter. */
module JsonRecovery {
  import opened Options

  datatype Json = Object(id: int) | NoObject(id: int)

  /** `parse` is a whole-text decoder, `prefix` decodes a value at the front and says where it ends. */
  datatype Decoder = Decoder(
    parse: string -> Option<Json>,
    prefix: string -> Option<(Json, nat)>,
    write: Json -> string
  )

  datatype Candidate = Candidate(start: nat, end: nat, value: Json)

  datatype JsonError = NotOneObject | NotAnObject

  datatype Taken = Taken(value: Json, recovered: bool) | Rejected(error: JsonError)

  /** The object that starts at this position, if one does. */
  function CandidateAt(d: Decoder, answer: string, i: nat): Option<Candidate>
    requires i < |answer|
  {
    if answer[i] != '{' then None
    else
      match d.prefix(answer[i..])
      case None => None
      case Some(found) => if found.0.Object? then Some(Candidate(i, i + found.1, found.0)) else None
  }

  /** All of them below position `n`, in order. */
  function Candidates(d: Decoder, answer: string, n: nat): (cs: seq<Candidate>)
    requires n <= |answer|
    ensures forall k :: 0 <= k < |cs| ==> cs[k].start < n
    ensures forall j, k :: 0 <= j < k < |cs| ==> cs[j].start < cs[k].start
  {
    if n == 0 then []
    else
      var before := Candidates(d, answer, n - 1);
      var c := CandidateAt(d, answer, n - 1);
      if c.Some? then before + [c.value] else before
  }

  /** The candidates are the positions of an opening brace at which the library decodes an object. */
  lemma {:induction false} CandidatesAre(d: Decoder, answer: string, n: nat, c: Candidate)
    requires n <= |answer|
    ensures c in Candidates(d, answer, n) <==>
      && c.start < n && answer[c.start] == '{'
      && c.start <= c.end && d.prefix(answer[c.start..]) == Some((c.value, c.end - c.start)) && c.value.Object?
  {
    if n > 0 {
      CandidatesAre(d, answer, n - 1, c);
    }
  }

  predicate Inside(c: Candidate, d: Candidate) {
    d.start <= c.start && c.end <= d.end
  }

  predicate Swallowed(cs: seq<Candidate>, c: Candidate) {
    exists k :: 0 <= k < |cs| && Inside(c, cs[k]) && (cs[k].start, cs[k].end) != (c.start, c.end)
  }

  /** The candidates among the first `n` that lie inside no other one. */
  function Maximal(cs: seq<Candidate>, n: nat): (ms: seq<Candidate>)
    requires n <= |cs|
    ensures forall c :: c in ms <==> c in cs[..n] && !Swallowed(cs, c)
  {
    if n == 0 then []
    else
      var before := Maximal(cs, n - 1);
      assert cs[..n] == cs[..n - 1] + [cs[n - 1]];
      if Swallowed(cs, cs[n - 1]) then before else before + [cs[n - 1]]
  }

  function Take(d: Decoder, answer: string): Taken {
    match d.parse(answer)
    case Some(value) => if value.Object? then Taken(value, false) else Rejected(NotAnObject)
    case None =>
      var cs := Candidates(d, answer, |answer|);
      var ms := Maximal(cs, |cs|);
      if |ms| == 1 then Taken(ms[0].value, true) else Rejected(NotOneObject)
  }

  method TakeAnswer(d: Decoder, answer: string) returns (taken: Taken)
    ensures taken == Take(d, answer)
  {
    hide Candidates, Maximal;
    var whole := d.parse(answer);
    if whole.Some? {
      return if whole.value.Object? then Taken(whole.value, false) else Rejected(NotAnObject);
    }
    var candidates := Collect(d, answer);
    var maximal := KeepMaximal(candidates);
    if |maximal| != 1 {
      return Rejected(NotOneObject);
    }
    return Taken(maximal[0].value, true);
  }

  method Collect(d: Decoder, answer: string) returns (candidates: seq<Candidate>)
    ensures candidates == Candidates(d, answer, |answer|)
  {
    candidates := [];
    for i := 0 to |answer|
      invariant candidates == Candidates(d, answer, i)
    {
      if answer[i] != '{' {
        continue;
      }
      var found := d.prefix(answer[i..]);
      if found.None? {
        continue;
      }
      if found.value.0.Object? {
        candidates := candidates + [Candidate(i, i + found.value.1, found.value.0)];
      }
    }
  }

  method KeepMaximal(candidates: seq<Candidate>) returns (maximal: seq<Candidate>)
    ensures maximal == Maximal(candidates, |candidates|)
  {
    hide Swallowed;
    maximal := [];
    for k := 0 to |candidates|
      invariant maximal == Maximal(candidates, k)
    {
      var swallowed := IsSwallowed(candidates, candidates[k]);
      if !swallowed {
        maximal := maximal + [candidates[k]];
      }
    }
  }

  method IsSwallowed(cs: seq<Candidate>, c: Candidate) returns (found: bool)
    ensures found == Swallowed(cs, c)
  {
    found := false;
    for k := 0 to |cs|
      invariant found <==> exists m :: 0 <= m < k && Inside(c, cs[m]) && (cs[m].start, cs[m].end) != (c.start, c.end)
    {
      if Inside(c, cs[k]) && (cs[k].start, cs[k].end) != (c.start, c.end) {
        found := true;
      }
    }
  }

  // --- What makes a recovery succeed ---

  /** The first object contains all others. */
  predicate FirstCovers(cs: seq<Candidate>) {
    cs != [] && forall k :: 0 <= k < |cs| ==> cs[k].end <= cs[0].end
  }

  predicate DistinctStarts(cs: seq<Candidate>) {
    forall j, k :: 0 <= j < k < |cs| ==> cs[j].start < cs[k].start
  }

  // Every candidate lies inside a maximal one.
  lemma {:induction false} Climb(cs: seq<Candidate>, c: Candidate, room: nat) returns (m: Candidate)
    requires c in cs && forall k :: 0 <= k < |cs| ==> cs[k].end - cs[k].start <= c.end - c.start + room
    ensures m in Maximal(cs, |cs|) && Inside(c, m)
    decreases room
  {
    assert cs[..|cs|] == cs;
    m := c;
    if Swallowed(cs, c) {
      var k :| 0 <= k < |cs| && Inside(c, cs[k]) && (cs[k].start, cs[k].end) != (c.start, c.end);
      m := Climb(cs, cs[k], room - ((cs[k].end - cs[k].start) - (c.end - c.start)));
    }
  }

  lemma Room(cs: seq<Candidate>, c: Candidate) returns (room: nat)
    ensures forall k :: 0 <= k < |cs| ==> cs[k].end - cs[k].start <= c.end - c.start + room
    decreases |cs|
  {
    if cs == [] {
      room := 0;
    } else {
      var last := cs[|cs| - 1];
      room := Room(cs[..|cs| - 1], c);
      if (last.end - last.start) - (c.end - c.start) > room {
        room := (last.end - last.start) - (c.end - c.start);
      }
    }
  }

  lemma MaximalNoRepeat(cs: seq<Candidate>, n: nat)
    requires n <= |cs| && DistinctStarts(cs)
    ensures forall j, k :: 0 <= j < k < |Maximal(cs, n)| ==> Maximal(cs, n)[j] != Maximal(cs, n)[k]
  {
    if n > 0 {
      MaximalNoRepeat(cs, n - 1);
      assert forall c :: c in cs[..n - 1] ==> c.start < cs[n - 1].start;
    }
  }

  // The only maximal candidate contains all others, so it is the first.
  lemma OnlyMaximalCovers(cs: seq<Candidate>)
    requires DistinctStarts(cs) && |Maximal(cs, |cs|)| == 1
    ensures FirstCovers(cs)
  {
    var ms := Maximal(cs, |cs|);
    assert cs[..|cs|] == cs;
    assert ms[0] in ms;
    forall k | 0 <= k < |cs| ensures Inside(cs[k], ms[0]) {
      var room := Room(cs, cs[k]);
      var m := Climb(cs, cs[k], room);
    }
    assert Inside(cs[0], ms[0]);
  }

  // If the first candidate contains all others, it is inside no other, and every other is inside it.
  lemma FirstIsFree(cs: seq<Candidate>, k: nat)
    requires DistinctStarts(cs) && FirstCovers(cs) && k < |cs|
    ensures !Swallowed(cs, cs[k]) <==> k == 0
  {
    assert k > 0 ==> Inside(cs[k], cs[0]) && (cs[0].start, cs[0].end) != (cs[k].start, cs[k].end);
  }

  lemma FirstIsMaximal(cs: seq<Candidate>)
    requires DistinctStarts(cs) && FirstCovers(cs)
    ensures Maximal(cs, |cs|) == [cs[0]]
  {
    var ms := Maximal(cs, |cs|);
    assert cs[..|cs|] == cs;
    MaximalNoRepeat(cs, |cs|);
    forall m | m in cs ensures m in ms <==> m == cs[0] {
      var k :| 0 <= k < |cs| && cs[k] == m;
      FirstIsFree(cs, k);
    }
    assert cs[0] in ms;
    assert ms[0] in ms && ms[|ms| - 1] in ms;
  }

  /** A text that is no JSON itself is accepted exactly when the first object in it contains all others,
      and that object is taken. */
  lemma RecoveredExactlyWhenFirstCovers(d: Decoder, answer: string)
    requires d.parse(answer) == None
    ensures var cs := Candidates(d, answer, |answer|);
      && (Take(d, answer).Taken? <==> FirstCovers(cs))
      && (FirstCovers(cs) ==> Take(d, answer) == Taken(cs[0].value, true))
  {
    hide Maximal, FirstCovers;
    var cs := Candidates(d, answer, |answer|);
    if |Maximal(cs, |cs|)| == 1 {
      OnlyMaximalCovers(cs);
    }
    if FirstCovers(cs) {
      FirstIsMaximal(cs);
    }
  }
}
