/**
 * `find_correct_answer` of study_app_ocr.py: the explanation of a question
 * cites the wrong choices as `(Choice A)`, `(Choice B & C)`, ...; the correct
 * answer is the one label of A..D that is never cited, when there is exactly
 * one.
 *
 * The six patterns are matched case-insensitively (ASCII case only), so a
 * lower-case letter is captured too, but only the upper-case labels count as
 * cited.
 */
module Inference {
  import opened Text

  /** One element of a pattern: a literal character, or a captured `[A-D]`. */
  datatype Token = Lit(c: char) | Letter

  type Pattern = seq<Token>

  /** A pattern written as text, `#` standing for a captured `([A-D])`. */
  function Template(t: string): (p: Pattern)
    ensures |p| == |t|
    ensures forall k :: 0 <= k < |t| ==> p[k] == if t[k] == '#' then Letter else Lit(t[k])
  {
    seq(|t|, k requires 0 <= k < |t| => if t[k] == '#' then Letter else Lit(t[k]))
  }

  /** The six citation patterns, in the order the source tries them. */
  const Patterns: seq<Pattern> := [
    Template("(Choice #)"),
    Template("(Choice # & #)"),
    Template("(Choice # & # & #)"),
    Template("(Choice #, #, & #)"),
    Template("(Choice #, #, and #)"),
    Template("(Choice # and #)")
  ]

  function Lower(c: char): char {
    if IsUpper(c) then (c as int + 32) as char else c
  }

  /** `re.IGNORECASE` on ASCII: the two characters agree up to case. */
  predicate SameLetterCase(a: char, b: char) {
    Lower(a) == Lower(b)
  }

  /** `[A-D]` under `re.IGNORECASE`. */
  predicate IsLetterIgnoringCase(c: char) {
    IsChoiceLetter(c) || 'a' <= c <= 'd'
  }

  /** The pattern matched at `i`: the captured characters, in order. */
  function MatchAt(p: Pattern, s: string, i: nat): (r: Option<string>)
    requires i <= |s|
    ensures r.Some? ==> i + |p| <= |s|
    ensures r.Some? ==> forall c :: c in r.value ==> c in s[i..i + |p|]
    decreases |p|
  {
    if p == [] then Some("")
    else if |s| <= i then None
    else
      match p[0]
      case Lit(c) =>
        if SameLetterCase(s[i], c) then MatchAt(p[1..], s, i + 1) else None
      case Letter =>
        if IsLetterIgnoringCase(s[i]) then
          match MatchAt(p[1..], s, i + 1)
          case None => None
          case Some(rest) => Some([s[i]] + rest)
        else None
  }

  /** `re.findall` from `i` on: leftmost matches, each search resuming after the last match. */
  function FindAll(p: Pattern, s: string, i: nat): (r: seq<string>)
    requires |p| > 0 && i <= |s|
    decreases |s| - i
  {
    if |s| < i + |p| then []
    else match MatchAt(p, s, i)
      case Some(caps) => [caps] + FindAll(p, s, i + |p|)
      case None => FindAll(p, s, i + 1)
  }

  /** The labels among some captured characters: `choice in all_choices`. */
  function LabelsIn(caps: string): set<char> {
    set c | c in caps && IsChoiceLetter(c)
  }

  function LabelsInAll(ms: seq<string>): set<char> {
    if ms == [] then {} else LabelsInAll(ms[..|ms| - 1]) + LabelsIn(ms[|ms| - 1])
  }

  /** The labels the explanation cites through the patterns of `ps`. */
  function CitedBy(ps: seq<Pattern>, s: string): set<char>
    requires forall k :: 0 <= k < |ps| ==> |ps[k]| > 0
  {
    if ps == [] then {} else CitedBy(ps[..|ps| - 1], s) + LabelsInAll(FindAll(ps[|ps| - 1], s, 0))
  }

  lemma PatternsNonEmpty()
    ensures forall k :: 0 <= k < |Patterns| ==> |Patterns[k]| > 0 && Patterns[k][0] == Lit('(')
  {
  }

  const AllChoices: set<char> := {'A', 'B', 'C', 'D'}

  /** The labels the first `n` patterns cite. */
  function CitedByFirst(n: nat, s: string): set<char>
    requires n <= |Patterns|
  {
    PatternsNonEmpty();
    CitedBy(Patterns[..n], s)
  }

  /** The labels of the explanation that no pattern cites. */
  function Uncited(s: string): set<char> {
    AllChoices - CitedByFirst(|Patterns|, s)
  }

  /** The first of `letters` that belongs to `m`. */
  function FirstIn(m: set<char>, letters: string): (r: Option<char>)
    ensures r.Some? ==> r.value in m
    ensures r.None? ==> forall i :: 0 <= i < |letters| ==> letters[i] !in m
  {
    if letters == "" then None
    else if letters[0] in m then Some(letters[0])
    else FirstIn(m, letters[1..])
  }

  /** `find_correct_answer`: the only uncited label, if there is exactly one. */
  function CorrectAnswer(explanation: Option<string>): (r: Option<char>)
    ensures explanation.None? || explanation.value == "" ==> r.None?
    ensures r.Some? ==> explanation.Some? && Uncited(explanation.value) == {r.value}
    ensures explanation.Some? && explanation.value != "" && |Uncited(explanation.value)| == 1 ==> r.Some?
  {
    if explanation.None? || explanation.value == "" then None
    else
      var correct := Uncited(explanation.value);
      if |correct| == 1 then
        var r := FirstIn(correct, ChoiceLetters);
        assert r.Some? by {
          var x :| x in correct;
          assert x in AllChoices;
          assert x == ChoiceLetters[0] || x == ChoiceLetters[1] || x == ChoiceLetters[2] || x == ChoiceLetters[3];
        }
        SingletonIs(correct, r.value);
        r
      else None
  }

  lemma SingletonIs(m: set<char>, x: char)
    requires |m| == 1 && x in m
    ensures m == {x}
  {
    var rest := m - {x};
    assert |rest| == 0;
  }

  /** The captures of one match, added to `wrong` character by character. */
  method AddCaptures(wrong: set<char>, caps: string) returns (w: set<char>)
    ensures w == wrong + LabelsIn(caps)
  {
    w := wrong;
    for t := 0 to |caps|
      invariant w == wrong + LabelsIn(caps[..t])
    {
      assert caps[..t + 1] == caps[..t] + [caps[t]];
      if IsChoiceLetter(caps[t]) {
        w := w + {caps[t]};
      }
    }
    assert caps[..|caps|] == caps;
  }

  /** `find_correct_answer` as the source writes it: a set of wrong choices built pattern by pattern. */
  method FindCorrectAnswer(explanation: Option<string>) returns (r: Option<char>)
    ensures r == CorrectAnswer(explanation)
  {
    if explanation.None? || explanation.value == "" {
      return None;
    }
    var s := explanation.value;
    PatternsNonEmpty();
    var wrong: set<char> := {};
    for k := 0 to |Patterns|
      invariant wrong == CitedByFirst(k, s)
    {
      assert Patterns[..k + 1][..k] == Patterns[..k];
      var matches := FindAll(Patterns[k], s, 0);
      ghost var before := wrong;
      for m := 0 to |matches|
        invariant wrong == before + LabelsInAll(matches[..m])
      {
        assert matches[..m + 1][..m] == matches[..m];
        wrong := AddCaptures(wrong, matches[m]);
      }
      assert matches[..|matches|] == matches;
    }
    var correct := AllChoices - wrong;
    if |correct| == 1 {
      var letter :| letter in correct;
      SingletonIs(correct, letter);
      r := Some(letter);
    } else {
      r := None;
    }
  }

  // ------------------------------------------------- what the scan finds

  /** What one pattern element accepts. */
  predicate Accepts(t: Token, x: char) {
    match t
    case Lit(c) => SameLetterCase(x, c)
    case Letter => IsLetterIgnoringCase(x)
  }

  lemma {:induction false} MatchAccepts(p: Pattern, s: string, i: nat, k: nat)
    requires i <= |s| && MatchAt(p, s, i).Some? && k < |p|
    ensures Accepts(p[k], s[i + k])
    decreases |p|
  {
    if k > 0 {
      MatchAccepts(p[1..], s, i + 1, k - 1);
    }
  }

  /** A pattern opens with `(` and holds no other `(`, so its matches cannot overlap. */
  predicate Anchored(p: Pattern) {
    |p| > 0 && p[0] == Lit('(') && forall k :: 1 <= k < |p| ==> p[k] != Lit('(')
  }

  lemma PatternsAnchored()
    ensures forall k :: 0 <= k < |Patterns| ==> Anchored(Patterns[k])
  {
  }

  /** Only the first character of a match of an anchored pattern is `(`. */
  lemma ParenOnlyFirst(p: Pattern, s: string, i: nat, k: nat)
    requires Anchored(p) && i <= |s| && MatchAt(p, s, i).Some? && k < |p|
    ensures s[i + k] == '(' <==> k == 0
  {
    MatchAccepts(p, s, i, k);
  }

  /** Every match at or after `i` is among those `findall` returns. */
  lemma {:induction false} FindAllComplete(p: Pattern, s: string, i: nat, j: nat)
    requires Anchored(p) && i <= j <= |s| && MatchAt(p, s, j).Some?
    ensures MatchAt(p, s, j).value in FindAll(p, s, i)
    decreases |s| - i
  {
    if MatchAt(p, s, i).Some? {
      if i < j {
        if j < i + |p| {
          ParenOnlyFirst(p, s, j, 0);
          ParenOnlyFirst(p, s, i, j - i);
        }
        FindAllComplete(p, s, i + |p|, j);
      }
    } else {
      FindAllComplete(p, s, i + 1, j);
    }
  }

  /** Everything `findall` returns is a match at or after `i`. */
  lemma {:induction false} FindAllSound(p: Pattern, s: string, i: nat, m: string)
    requires |p| > 0 && i <= |s| && m in FindAll(p, s, i)
    ensures exists j :: i <= j <= |s| && MatchAt(p, s, j) == Some(m)
    decreases |s| - i
  {
    if MatchAt(p, s, i).Some? && m != MatchAt(p, s, i).value {
      FindAllSound(p, s, i + |p|, m);
    } else if MatchAt(p, s, i).None? {
      FindAllSound(p, s, i + 1, m);
    }
  }

  lemma {:induction false} LabelsInAllIff(ms: seq<string>, c: char)
    ensures c in LabelsInAll(ms) <==> IsChoiceLetter(c) && exists t :: 0 <= t < |ms| && c in ms[t]
    decreases |ms|
  {
    if ms != [] {
      var init := ms[..|ms| - 1];
      LabelsInAllIff(init, c);
      assert forall t :: 0 <= t < |init| ==> init[t] == ms[t];
    }
  }

  /** `c` is the label captured by some match of one of the first `n` patterns. */
  ghost predicate CitedAmong(n: nat, s: string, c: char)
    requires n <= |Patterns|
  {
    IsChoiceLetter(c) &&
    exists k, j :: 0 <= k < n && 0 <= j <= |s| && MatchAt(Patterns[k], s, j).Some? &&
      c in MatchAt(Patterns[k], s, j).value
  }

  lemma {:induction false} CitedByIff(n: nat, s: string, c: char)
    requires n <= |Patterns|
    ensures c in CitedByFirst(n, s) <==> CitedAmong(n, s, c)
  {
    PatternsNonEmpty();
    PatternsAnchored();
    if n > 0 {
      assert Patterns[..n][..n - 1] == Patterns[..n - 1];
      CitedByIff(n - 1, s, c);
      var p := Patterns[n - 1];
      var found := FindAll(p, s, 0);
      LabelsInAllIff(found, c);
      if c in LabelsInAll(found) {
        var t :| 0 <= t < |found| && c in found[t];
        FindAllSound(p, s, 0, found[t]);
      }
      if CitedAmong(n, s, c) && !CitedAmong(n - 1, s, c) {
        var k, j :| 0 <= k < n && 0 <= j <= |s| && MatchAt(Patterns[k], s, j).Some? &&
          c in MatchAt(Patterns[k], s, j).value;
        assert k == n - 1;
        FindAllComplete(p, s, 0, j);
      }
    }
  }

  lemma UncitedMembers(s: string)
    ensures forall c :: c in Uncited(s) <==> IsChoiceLetter(c) && !CitedAmong(|Patterns|, s, c)
  {
    forall c ensures c in Uncited(s) <==> IsChoiceLetter(c) && !CitedAmong(|Patterns|, s, c) {
      CitedByIff(|Patterns|, s, c);
    }
  }

  /**
   * The answer is the one label that no citation names: a label is wrong exactly
   * when a match of one of the six patterns, anywhere in the explanation,
   * captures it in upper case.
   */
  lemma CorrectAnswerIsUncitedLabel(s: string, letter: char)
    requires s != ""
    ensures CorrectAnswer(Some(s)) == Some(letter) <==>
      IsChoiceLetter(letter) && !CitedAmong(|Patterns|, s, letter) &&
      forall c :: IsChoiceLetter(c) && c != letter ==> CitedAmong(|Patterns|, s, c)
  {
    var u := Uncited(s);
    UncitedMembers(s);
    if IsChoiceLetter(letter) && !CitedAmong(|Patterns|, s, letter) &&
       forall c :: IsChoiceLetter(c) && c != letter ==> CitedAmong(|Patterns|, s, c)
    {
      assert u == {letter};
    }
  }

  lemma {:induction false} MatchWhenAllAccept(p: Pattern, s: string, i: nat)
    requires i + |p| <= |s| && forall k :: 0 <= k < |p| ==> Accepts(p[k], s[i + k])
    ensures MatchAt(p, s, i).Some?
    ensures forall k :: 0 <= k < |p| && p[k] == Letter ==> s[i + k] in MatchAt(p, s, i).value
    decreases |p|
  {
    if p != [] {
      MatchWhenAllAccept(p[1..], s, i + 1);
      forall k | 0 <= k < |p| && p[k] == Letter ensures s[i + k] in MatchAt(p, s, i).value {
        if k > 0 {
          assert p[1..][k - 1] == Letter;
        }
      }
    }
  }

  /** A label that does not occur in the explanation is never cited. */
  lemma AbsentNotCited(s: string, c: char)
    requires c !in s
    ensures !CitedAmong(|Patterns|, s, c)
  {
  }

  /** `w` is the text of template `t` with a label in place of every `#`. */
  predicate Instance(t: string, w: string) {
    |w| == |t| && forall k :: 0 <= k < |t| ==> if t[k] == '#' then IsChoiceLetter(w[k]) else w[k] == t[k]
  }

  /** A citation written out at position `j` of the explanation cites each of its labels. */
  lemma InstanceCites(k: nat, t: string, s: string, j: nat, w: string, at: nat, c: char)
    requires k < |Patterns| && Patterns[k] == Template(t)
    requires Instance(t, w) && j + |w| <= |s| && forall i :: 0 <= i < |w| ==> s[j + i] == w[i]
    requires at < |t| && t[at] == '#' && w[at] == c
    ensures CitedAmong(|Patterns|, s, c)
  {
    forall i | 0 <= i < |t| ensures Accepts(Patterns[k][i], s[j + i]) {
      assert s[j + i] == w[i];
    }
    MatchWhenAllAccept(Patterns[k], s, j);
    assert s[j + at] == w[at];
  }

  /** Where the pieces of a four-piece text sit in it. */
  lemma Pieces(a: string, b: string, c: string, d: string)
    ensures forall i :: 0 <= i < |a| ==> (a + b + c + d)[i] == a[i]
    ensures forall i :: 0 <= i < |c| ==> (a + b + c + d)[|a| + |b| + i] == c[i]
    ensures forall x :: x in a + b + c + d <==> x in a || x in b || x in c || x in d
  {
  }

  lemma TwoCitationsPieces()
    ensures Instance("(Choice #)", "(Choice A)") && "(Choice A)"[8] == 'A'
    ensures Instance("(Choice # & #)", "(Choice B & C)") && "(Choice B & C)"[8] == 'B' && "(Choice B & C)"[12] == 'C'
    ensures 'D' !in "(Choice A)" && 'D' !in " is wrong. " && 'D' !in "(Choice B & C)" && 'D' !in " are wrong."
  {
  }

  lemma LabelsBeforeD(c: char)
    requires IsChoiceLetter(c) && c != 'D'
    ensures c == 'A' || c == 'B' || c == 'C'
  {
    assert c as int == 65 || c as int == 66 || c as int == 67;
  }

  /** D is the answer once A, B and C are cited and D is not. */
  lemma AnswerIsD(s: string)
    requires s != ""
    requires CitedAmong(|Patterns|, s, 'A') && CitedAmong(|Patterns|, s, 'B') && CitedAmong(|Patterns|, s, 'C')
    requires 'D' !in s
    ensures CorrectAnswer(Some(s)) == Some('D')
  {
    AbsentNotCited(s, 'D');
    forall c | IsChoiceLetter(c) && c != 'D' ensures CitedAmong(|Patterns|, s, c) {
      LabelsBeforeD(c);
    }
    CorrectAnswerIsUncitedLabel(s, 'D');
  }

  lemma TwoCitationsCiteA(s: string)
    requires s == "(Choice A)" + " is wrong. " + "(Choice B & C)" + " are wrong."
    ensures CitedAmong(|Patterns|, s, 'A')
  {
    Pieces("(Choice A)", " is wrong. ", "(Choice B & C)", " are wrong.");
    TwoCitationsPieces();
    InstanceCites(0, "(Choice #)", s, 0, "(Choice A)", 8, 'A');
  }

  lemma TwoCitationsCiteBC(s: string)
    requires s == "(Choice A)" + " is wrong. " + "(Choice B & C)" + " are wrong."
    ensures CitedAmong(|Patterns|, s, 'B') && CitedAmong(|Patterns|, s, 'C')
  {
    Pieces("(Choice A)", " is wrong. ", "(Choice B & C)", " are wrong.");
    TwoCitationsPieces();
    InstanceCites(1, "(Choice # & #)", s, 21, "(Choice B & C)", 8, 'B');
    InstanceCites(1, "(Choice # & #)", s, 21, "(Choice B & C)", 12, 'C');
  }

  lemma TwoCitationsCiteABC(s: string)
    requires s == "(Choice A)" + " is wrong. " + "(Choice B & C)" + " are wrong."
    ensures CitedAmong(|Patterns|, s, 'A') && CitedAmong(|Patterns|, s, 'B') && CitedAmong(|Patterns|, s, 'C')
    ensures 'D' !in s
  {
    TwoCitationsCiteA(s);
    TwoCitationsCiteBC(s);
    Pieces("(Choice A)", " is wrong. ", "(Choice B & C)", " are wrong.");
    TwoCitationsPieces();
  }

  /** "(Choice A) is wrong. (Choice B & C) are wrong." names D. */
  lemma ExampleTwoCitations(s: string)
    requires s == "(Choice A)" + " is wrong. " + "(Choice B & C)" + " are wrong."
    ensures CorrectAnswer(Some(s)) == Some('D')
  {
    TwoCitationsCiteABC(s);
    AnswerIsD(s);
  }

  /** "(Choice A)" alone leaves three candidates, so there is no answer. */
  lemma ExampleOneCitation(s: string)
    requires s == "(Choice A)"
    ensures CorrectAnswer(Some(s)) == None
  {
    AbsentNotCited(s, 'B');
    AbsentNotCited(s, 'D');
    UncitedMembers(s);
    assert {'B', 'D'} <= Uncited(s);
    assert |{'B', 'D'}| == 2;
  }

  lemma LowerCasePieces()
    ensures Instance("(Choice #, #, & #)", "(Choice A, B, & C)")
    ensures "(Choice A, B, & C)"[8] == 'A' && "(Choice A, B, & C)"[11] == 'B' && "(Choice A, B, & C)"[16] == 'C'
    ensures 'D' !in "(Choice A, B, & C)" && 'D' !in " (Choice d)"
  {
  }

  lemma LowerCaseCitesABC(s: string)
    requires s == "(Choice A, B, & C)" + " (Choice d)" + "" + ""
    ensures CitedAmong(|Patterns|, s, 'A') && CitedAmong(|Patterns|, s, 'B') && CitedAmong(|Patterns|, s, 'C')
    ensures 'D' !in s
  {
    var t := "(Choice #, #, & #)";
    Pieces("(Choice A, B, & C)", " (Choice d)", "", "");
    LowerCasePieces();
    InstanceCites(3, t, s, 0, "(Choice A, B, & C)", 8, 'A');
    InstanceCites(3, t, s, 0, "(Choice A, B, & C)", 11, 'B');
    InstanceCites(3, t, s, 0, "(Choice A, B, & C)", 16, 'C');
  }

  /**
   * "(Choice A, B, & C) (Choice d)" names D: the lower-case `d` the second
   * citation captures is not one of the labels, so it is not counted as wrong.
   */
  lemma ExampleLowerCaseIgnored(s: string)
    requires s == "(Choice A, B, & C)" + " (Choice d)" + "" + ""
    ensures CorrectAnswer(Some(s)) == Some('D')
  {
    LowerCaseCitesABC(s);
    AnswerIsD(s);
  }
}
