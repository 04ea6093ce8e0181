/** The string operations the output parser relies on: stripping and searching as Python defines them. */
module Strings {

  /** The characters `str.strip` removes. */
  predicate Space(c: char) {
    var n := c as int;
    || 9 <= n <= 13 || 28 <= n <= 32 || n == 0x85 || n == 0xA0 || n == 0x1680 || 0x2000 <= n <= 0x200A
    || n == 0x2028 || n == 0x2029 || n == 0x202F || n == 0x205F || n == 0x3000
  }

  // The blanks of Latin 1, and those beyond.
  const LATIN_BLANKS: set<int> := {9, 10, 11, 12, 13, 28, 29, 30, 31, 32, 133, 160}
  const OTHER_BLANKS: set<int> := {5760, 8192, 8193, 8194, 8195, 8196, 8197, 8198, 8199, 8200, 8201, 8202, 8232, 8233,
                                   8239, 8287, 12288}

  lemma SpacesAre(c: char)
    ensures Space(c) <==> c as int in LATIN_BLANKS + OTHER_BLANKS
  {
  }

  predicate Blank(s: string) {
    forall i :: 0 <= i < |s| ==> Space(s[i])
  }

  /** How many characters at the front are blank. */
  function TextStart(s: string, from: nat := 0): (n: nat)
    requires from <= |s| && forall i :: 0 <= i < from ==> Space(s[i])
    ensures n <= |s| && (n < |s| ==> !Space(s[n]))
    ensures forall i :: 0 <= i < n ==> Space(s[i])
    decreases |s| - from
  {
    if from == |s| || !Space(s[from]) then from else TextStart(s, from + 1)
  }

  /** The length without the blank characters at the end. */
  function TextEnd(s: string, to: nat): (n: nat)
    requires to <= |s| && forall i :: to <= i < |s| ==> Space(s[i])
    ensures n <= |s| && (n > 0 ==> !Space(s[n - 1]))
    ensures forall i :: n <= i < |s| ==> Space(s[i])
  {
    if to == 0 || !Space(s[to - 1]) then to else TextEnd(s, to - 1)
  }

  function LStrip(s: string): (r: string)
    ensures r == [] <==> Blank(s)
    ensures r != [] ==> !Space(r[0])
  {
    s[TextStart(s)..]
  }

  function RStrip(s: string): (r: string)
    ensures r == [] <==> Blank(s)
    ensures r != [] ==> !Space(r[|r| - 1])
    ensures r <= s
  {
    s[..TextEnd(s, |s|)]
  }

  function Strip(s: string): string {
    RStrip(LStrip(s))
  }

  predicate EndsWith(s: string, m: string) {
    |m| <= |s| && s[|s| - |m|..] == m
  }

  lemma TextStartIs(s: string, n: nat)
    requires n <= |s| && (n < |s| ==> !Space(s[n])) && forall i :: 0 <= i < n ==> Space(s[i])
    ensures TextStart(s) == n
  {
  }

  lemma TextEndIs(s: string, n: nat)
    requires n <= |s| && (n > 0 ==> !Space(s[n - 1])) && forall i :: n <= i < |s| ==> Space(s[i])
    ensures TextEnd(s, |s|) == n
  {
  }

  lemma LStripConcat(v: string, w: string)
    ensures LStrip(v + w) == if Blank(v) then LStrip(w) else LStrip(v) + w
  {
    hide Space, TextStart;
    if Blank(v) {
      TextStartIs(v + w, |v| + TextStart(w));
    } else {
      TextStartIs(v + w, TextStart(v));
    }
  }

  lemma RStripConcat(v: string, w: string)
    ensures RStrip(v + w) == if Blank(w) then RStrip(v) else v + RStrip(w)
  {
    hide Space, TextEnd;
    if Blank(w) {
      TextEndIs(v + w, TextEnd(v, |v|));
    } else {
      TextEndIs(v + w, |v| + TextEnd(w, |w|));
    }
  }

  predicate Occurs(s: string, m: string, i: int) {
    0 <= i <= |s| - |m| && s[i..i + |m|] == m
  }

  /** `str.find` from position `from`: the first occurrence, or -1. */
  function Find(s: string, m: string, from: nat): (r: int)
    ensures r == -1 || (from <= r && Occurs(s, m, r))
    ensures forall k :: from <= k && (r == -1 || k < r) ==> !Occurs(s, m, k)
    decreases |s| - from
  {
    if from + |m| > |s| then -1 else if Occurs(s, m, from) then from else Find(s, m, from + 1)
  }

  /** `str.rfind`: the last occurrence, or -1. */
  function RFind(s: string, m: string): (r: int)
    ensures r == -1 || Occurs(s, m, r)
    ensures forall k :: r < k ==> !Occurs(s, m, k)
  {
    RFindBelow(s, m, |s|)
  }

  function RFindBelow(s: string, m: string, below: nat): (r: int)
    requires forall k :: below < k ==> !Occurs(s, m, k)
    ensures r == -1 || Occurs(s, m, r)
    ensures forall k :: r < k ==> !Occurs(s, m, k)
  {
    if Occurs(s, m, below) then below else if below == 0 then -1 else RFindBelow(s, m, below - 1)
  }

  lemma OccursInPrefix(t: string, p: nat, m: string, i: int)
    requires p <= |t|
    ensures Occurs(t[..p], m, i) <==> Occurs(t, m, i) && i + |m| <= p
  {
  }

  /** A prefix of a text shows the same first occurrence, once it is long enough to contain it. */
  lemma FindInPrefix(t: string, p: nat, m: string, from: nat)
    requires p <= |t|
    ensures var r := Find(t, m, from);
      Find(t[..p], m, from) == if r >= 0 && r + |m| <= p then r else -1
  {
    forall i ensures Occurs(t[..p], m, i) <==> Occurs(t, m, i) && i + |m| <= p {
      OccursInPrefix(t, p, m, i);
    }
  }

}
