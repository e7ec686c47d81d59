/**
 * `extract_choices` of study_app.py: three extractors tried in turn until one
 * finds at least three choices, then the final cleanup of module Cleanup in
 * the mode that removes a trailing label.
 *
 *  - Tier 1 runs `findall` of `([A-D])\.\s*([^A-D]*?)(?=\s*[A-D]\.\s*|$)` over
 *    the whitespace-collapsed text and keeps its matches when there are at
 *    least three.
 *  - Tier 2 walks the original lines: a line opening with a label starts a
 *    choice and the following non-blank, non-label lines are appended to it.
 *  - Tier 3 searches, letter by letter, for `L\.\s*([^L]*?)(?=[A-D]\.|$)` in
 *    the collapsed text and keeps texts longer than three characters.
 *
 * The regular expressions are modelled on ASCII whitespace and the collapsed
 * text is a single line, so `$` is the end of the text.
 */
module Tiered {
  import opened Text
  import opened Cleanup

  /** One `findall` match of tier 1: the label and the captured text. */
  datatype Match = Match(letter: char, text: string)

  /** No character of `t` is a choice label: what `[^A-D]*` matches. */
  predicate NoLabelLetter(t: string) {
    forall k :: 0 <= k < |t| ==> !IsChoiceLetter(t[k])
  }

  // ---------------------------------------------------------------- tier 1

  /** The lookahead `(?=\s*[A-D]\.\s*|$)` holds at `q`. */
  predicate LabelAhead(s: string, q: nat)
    requires q <= |s|
  {
    q == |s| || LetterDotAt(s, q + LeadWs(s[q..]))
  }

  /** The first position at or after `q` where the tier-1 lookahead holds. */
  function LabelAheadFrom(s: string, q: nat): (e: nat)
    requires q <= |s|
    ensures q <= e <= |s| && LabelAhead(s, e)
    ensures forall k: nat :: q <= k < e ==> !LabelAhead(s, k)
    decreases |s| - q
  {
    if LabelAhead(s, q) then q else LabelAheadFrom(s, q + 1)
  }

  /**
   * The tier-1 pattern tried at `i`: after the label and its whitespace the lazy
   * group grows until the lookahead holds, and the attempt fails when it would
   * have to swallow a label letter first. (Giving back whitespace to the group
   * cannot help: the lookahead skips whitespace itself.) The result is the match
   * and the position where `findall` resumes.
   */
  function Tier1MatchAt(s: string, i: nat): (r: Option<(Match, nat)>)
    ensures r.Some? ==> LetterDotAt(s, i) && r.value.0.letter == s[i]
    ensures r.Some? ==> r.value.1 <= |s| && NoLabelLetter(r.value.0.text)
    ensures r.Some? ==> var (m, e) := r.value;
      i + 2 <= e - |m.text| && m.text == s[e - |m.text|..e] && LabelAhead(s, e)
  {
    if LetterDotAt(s, i) then
      var p := i + 2 + LeadWs(s[i + 2..]);
      var e := LabelAheadFrom(s, p);
      if NoLabelLetter(s[p..e]) then Some((Match(s[i], s[p..e]), e)) else None
    else None
  }

  /** `re.findall` of the tier-1 pattern from position `i` on. */
  function Tier1Matches(s: string, i: nat): (r: seq<Match>)
    requires i <= |s|
    ensures forall k :: 0 <= k < |r| ==> IsChoiceLetter(r[k].letter) && NoLabelLetter(r[k].text)
    decreases |s| - i
  {
    if i == |s| then []
    else match Tier1MatchAt(s, i)
      case Some((m, e)) => [m] + Tier1Matches(s, e)
      case None => Tier1Matches(s, i + 1)
  }

  /** The tier-1 loop over the matches: a later match for a letter overwrites an earlier one. */
  function Tier1Fold(acc: map<char, string>, ms: seq<Match>): map<char, string>
    decreases |ms|
  {
    if ms == [] then acc
    else
      var t := Strip(ms[0].text);
      Tier1Fold(if t != "" then acc[ms[0].letter := t] else acc, ms[1..])
  }

  /** The choices tier 1 finds in the collapsed text. */
  function Tier1Choices(cleaned: string): map<char, string> {
    var ms := Tier1Matches(cleaned, 0);
    if |ms| >= 3 then Tier1Fold(map[], ms) else map[]
  }

  /** One more match folded in. */
  lemma Tier1FoldStep(acc: map<char, string>, ms: seq<Match>, k: nat)
    requires k < |ms|
    ensures var t := Strip(ms[k].text);
      Tier1Fold(acc, ms[k..]) == Tier1Fold(if t != "" then acc[ms[k].letter := t] else acc, ms[k + 1..])
  {
    assert ms[k..][1..] == ms[k + 1..];
  }

  /** Tier 1 as the source writes it. */
  method Tier1(cleaned: string) returns (choices: map<char, string>)
    ensures choices == Tier1Choices(cleaned)
  {
    var matches := Tier1Matches(cleaned, 0);
    choices := map[];
    if |matches| >= 3 {
      var k := 0;
      while k < |matches|
        invariant 0 <= k <= |matches|
        invariant Tier1Fold(choices, matches[k..]) == Tier1Fold(map[], matches)
      {
        Tier1FoldStep(choices, matches, k);
        var text := Strip(matches[k].text);
        if text != "" {
          choices := choices[matches[k].letter := text];
        }
        k := k + 1;
      }
    }
  }

  /** Every choice is keyed by a label and holds trimmed, non-empty text. */
  predicate LabelledTexts(m: map<char, string>) {
    forall k :: k in m ==> IsChoiceLetter(k) && m[k] != "" && Trimmed(m[k])
  }

  /** A tier-1 text never holds a label letter: the capture stops before one. */
  predicate NoLabelLetters(m: map<char, string>) {
    forall k :: k in m ==> NoLabelLetter(m[k])
  }

  lemma {:induction false} Tier1FoldLabelled(acc: map<char, string>, ms: seq<Match>)
    requires LabelledTexts(acc) && NoLabelLetters(acc)
    requires forall k :: 0 <= k < |ms| ==> IsChoiceLetter(ms[k].letter) && NoLabelLetter(ms[k].text)
    ensures LabelledTexts(Tier1Fold(acc, ms)) && NoLabelLetters(Tier1Fold(acc, ms))
    decreases |ms|
  {
    if ms != [] {
      var t := Strip(ms[0].text);
      StripChars(ms[0].text);
      assert NoLabelLetter(t) by {
        forall k | 0 <= k < |t| ensures !IsChoiceLetter(t[k]) {
          assert t[k] in ms[0].text;
        }
      }
      Tier1FoldLabelled(if t != "" then acc[ms[0].letter := t] else acc, ms[1..]);
    }
  }

  /**
   * Tier 1 keeps nothing unless `findall` found three matches, and what it keeps
   * are trimmed, non-empty texts free of label letters under label keys.
   */
  lemma Tier1ChoicesLabelled(cleaned: string)
    ensures LabelledTexts(Tier1Choices(cleaned)) && NoLabelLetters(Tier1Choices(cleaned))
    ensures |Tier1Choices(cleaned)| > 0 ==> |Tier1Matches(cleaned, 0)| >= 3
  {
    var ms := Tier1Matches(cleaned, 0);
    if |ms| >= 3 {
      Tier1FoldLabelled(map[], ms);
    }
  }

  // ---------------------------------------------------------------- tier 2

  /** A line that continues the choice above it: not blank and not opening with a label. */
  predicate Continues(line: string) {
    Strip(line) != "" && !StartsWithLetterDot(Strip(line))
  }

  /** The end of the run of continuation lines starting at `j`. */
  function ContinuationEnd(lines: seq<string>, j: nat): (e: nat)
    requires j <= |lines|
    ensures j <= e <= |lines|
    ensures forall t :: j <= t < e ==> Continues(lines[t])
    ensures e < |lines| ==> !Continues(lines[e])
    decreases |lines| - j
  {
    if j < |lines| && Continues(lines[j]) then ContinuationEnd(lines, j + 1) else j
  }

  /** `acc` with `" " + line.strip()` appended for each of the lines `a .. b-1`, in order. */
  function Appended(acc: string, lines: seq<string>, a: nat, b: nat): string
    requires a <= b <= |lines|
    decreases b - a
  {
    if a == b then acc else Appended(acc, lines, a, b - 1) + " " + Strip(lines[b - 1])
  }

  /** The text of the choice that opens on line `i`, with its continuation lines. */
  function Tier2Text(lines: seq<string>, i: nat): string
    requires i < |lines| && StartsWithLetterDot(Strip(lines[i]))
  {
    Appended(Strip(Strip(lines[i])[2..]), lines, i + 1, ContinuationEnd(lines, i + 1))
  }

  /** The tier-2 loop over the lines from `i` on. */
  function Tier2Fold(acc: map<char, string>, lines: seq<string>, i: nat): map<char, string>
    requires i <= |lines|
    decreases |lines| - i
  {
    if i == |lines| then acc
    else
      var line := Strip(lines[i]);
      var acc' := if StartsWithLetterDot(line) && Tier2Text(lines, i) != ""
                  then acc[line[0] := Tier2Text(lines, i)] else acc;
      Tier2Fold(acc', lines, i + 1)
  }

  /** The choices tier 2 finds in the original text. */
  function Tier2Choices(text: string): map<char, string> {
    Tier2Fold(map[], Split(text, '\n'), 0)
  }

  /** The choice that opens on line `i`: the look-ahead loop over its continuation lines. */
  method Tier2Line(lines: seq<string>, i: nat) returns (choiceText: string)
    requires i < |lines| && StartsWithLetterDot(Strip(lines[i]))
    ensures choiceText == Tier2Text(lines, i)
  {
    var line := Strip(lines[i]);
    choiceText := Strip(line[2..]);
    var j := i + 1;
    while j < |lines| && Continues(lines[j])
      invariant i + 1 <= j <= |lines|
      invariant ContinuationEnd(lines, j) == ContinuationEnd(lines, i + 1)
      invariant choiceText == Appended(Strip(line[2..]), lines, i + 1, j)
      decreases |lines| - j
    {
      choiceText := choiceText + " " + Strip(lines[j]);
      j := j + 1;
    }
  }

  /** Tier 2 as the source writes it. */
  method Tier2(text: string) returns (choices: map<char, string>)
    ensures choices == Tier2Choices(text)
  {
    var lines := Split(text, '\n');
    choices := map[];
    var i := 0;
    while i < |lines|
      invariant 0 <= i <= |lines|
      invariant Tier2Fold(choices, lines, i) == Tier2Fold(map[], lines, 0)
    {
      var line := Strip(lines[i]);
      if StartsWithLetterDot(line) {
        var choiceText := Tier2Line(lines, i);
        if choiceText != "" {
          choices := choices[line[0] := choiceText];
        }
      }
      i := i + 1;
    }
  }

  /** The stripped lines `a .. b-1`. */
  function StrippedLines(lines: seq<string>, a: nat, b: nat): seq<string>
    requires a <= b <= |lines|
  {
    seq(b - a, t requires 0 <= t < b - a => Strip(lines[a + t]))
  }

  lemma StrippedLinesLast(lines: seq<string>, a: nat, b: nat)
    requires a < b <= |lines|
    ensures StrippedLines(lines, a, b) == StrippedLines(lines, a, b - 1) + [Strip(lines[b - 1])]
  {
  }

  /** Appending one more piece to a join of `[acc] + init`. */
  lemma JoinOneMore(acc: string, init: seq<string>, last: string)
    ensures Join(" ", [acc] + init) + " " + last == Join(" ", [acc] + (init + [last]))
  {
    assert [acc] + (init + [last]) == ([acc] + init) + [last];
    JoinAppend(" ", [acc] + init, last);
  }

  /** One more line: the join of `[acc]` and the first `b - a` stripped lines, extended by line `b - 1`. */
  lemma AppendedIsJoinStep(acc: string, lines: seq<string>, a: nat, b: nat)
    requires a < b <= |lines|
    requires Appended(acc, lines, a, b - 1) == Join(" ", [acc] + StrippedLines(lines, a, b - 1))
    ensures Appended(acc, lines, a, b) == Join(" ", [acc] + StrippedLines(lines, a, b))
  {
    JoinOneMore(acc, StrippedLines(lines, a, b - 1), Strip(lines[b - 1]));
    StrippedLinesLast(lines, a, b);
  }

  lemma {:induction false} AppendedIsJoin(acc: string, lines: seq<string>, a: nat, b: nat)
    requires a <= b <= |lines|
    ensures Appended(acc, lines, a, b) == Join(" ", [acc] + StrippedLines(lines, a, b))
    decreases b - a
  {
    if a == b {
      assert [acc] + StrippedLines(lines, a, b) == [acc];
    } else {
      AppendedIsJoin(acc, lines, a, b - 1);
      AppendedIsJoinStep(acc, lines, a, b);
    }
  }

  /**
   * A tier-2 choice is the text after its label joined by single spaces with the
   * stripped continuation lines below it, which run up to the first blank line,
   * the first line opening with a label, or the end of the text.
   */
  lemma Tier2TextIsJoin(lines: seq<string>, i: nat)
    requires i < |lines| && StartsWithLetterDot(Strip(lines[i]))
    ensures var e := ContinuationEnd(lines, i + 1);
      Tier2Text(lines, i) == Join(" ", [Strip(Strip(lines[i])[2..])] + StrippedLines(lines, i + 1, e)) &&
      (forall t :: i < t < e ==> Continues(lines[t])) &&
      (e < |lines| ==> Strip(lines[e]) == "" || StartsWithLetterDot(Strip(lines[e])))
  {
    AppendedIsJoin(Strip(Strip(lines[i])[2..]), lines, i + 1, ContinuationEnd(lines, i + 1));
  }

  /** Every tier-2 choice is keyed by a label and is non-empty. */
  predicate LabelledNonEmpty(m: map<char, string>) {
    forall k :: k in m ==> IsChoiceLetter(k) && m[k] != ""
  }

  lemma {:induction false} Tier2FoldLabelled(acc: map<char, string>, lines: seq<string>, i: nat)
    requires i <= |lines| && LabelledNonEmpty(acc)
    ensures LabelledNonEmpty(Tier2Fold(acc, lines, i))
    decreases |lines| - i
  {
    if i < |lines| {
      var line := Strip(lines[i]);
      var acc' := if StartsWithLetterDot(line) && Tier2Text(lines, i) != ""
                  then acc[line[0] := Tier2Text(lines, i)] else acc;
      Tier2FoldLabelled(acc', lines, i + 1);
    }
  }

  lemma Tier2ChoicesLabelled(text: string)
    ensures LabelledNonEmpty(Tier2Choices(text))
  {
    Tier2FoldLabelled(map[], Split(text, '\n'), 0);
  }

  // ---------------------------------------------------------------- tier 3

  /** The text up to the next label holds no label. */
  lemma NoLabelBeforeEnd(s: string, p: nat, e: nat)
    requires p <= e <= |s|
    requires forall k: nat :: p <= k < e ==> !LetterDotAt(s, k)
    ensures forall j: nat :: !LetterDotAt(s[p..e], j)
  {
    forall j: nat ensures !LetterDotAt(s[p..e], j) {
      if j + 1 < e - p {
        assert s[p..e][j] == s[p + j] && s[p..e][j + 1] == s[p + j + 1];
        assert !LetterDotAt(s, p + j);
      }
    }
  }

  /**
   * The tier-3 pattern for `letter` tried at `i`: after `letter.` and its
   * whitespace the lazy group grows up to the next label or the end, and fails
   * when it would have to swallow `letter` first.
   */
  function Tier3MatchAt(s: string, letter: char, i: nat): (r: Option<string>)
    ensures r.Some? ==> i + 1 < |s| && s[i] == letter && s[i + 1] == '.'
    ensures r.Some? ==> letter !in r.value
    ensures r.Some? ==> forall j: nat :: !LetterDotAt(r.value, j)
    ensures r.Some? ==> forall c :: c in r.value ==> c in s
  {
    if i + 1 < |s| && s[i] == letter && s[i + 1] == '.' then
      var p := i + 2 + LeadWs(s[i + 2..]);
      var e := LabelOrEnd(s, p);
      var g := s[p..e];
      if letter !in g then
        NoLabelBeforeEnd(s, p, e);
        Some(g)
      else None
    else None
  }

  /** `re.search`: the leftmost tier-3 match for `letter` at or after `i`. */
  function Tier3Search(s: string, letter: char, i: nat): (r: Option<string>)
    requires i <= |s|
    ensures r.Some? ==> letter !in r.value && forall j: nat :: !LetterDotAt(r.value, j)
    ensures r.Some? ==> forall c :: c in r.value ==> c in s
    decreases |s| - i
  {
    if i == |s| then None
    else if Tier3MatchAt(s, letter, i).Some? then Tier3MatchAt(s, letter, i)
    else Tier3Search(s, letter, i + 1)
  }

  /**
   * The text tier 3 keeps for `letter`: the stripped capture with everything from
   * a label on cut off and stripped again, when longer than three characters.
   */
  function Tier3Text(s: string, letter: char): (r: Option<string>)
    requires '\n' !in s
  {
    match Tier3Search(s, letter, 0)
    case None => None
    case Some(g) =>
      StripChars(g);
      var text := DropFromFirstLabel(Strip(g));
      if text != "" && |text| > 3 then Some(text) else None
  }

  /** The tier-3 loop over the letters. */
  function Tier3Fold(acc: map<char, string>, s: string, letters: string): map<char, string>
    requires '\n' !in s
    decreases |letters|
  {
    if letters == "" then acc
    else
      var acc' := if Tier3Text(s, letters[0]).Some? then acc[letters[0] := Tier3Text(s, letters[0]).value] else acc;
      Tier3Fold(acc', s, letters[1..])
  }

  /** The choices tier 3 finds in the collapsed text. */
  function Tier3Choices(cleaned: string): map<char, string>
    requires '\n' !in cleaned
  {
    Tier3Fold(map[], cleaned, ChoiceLetters)
  }

  /** Tier 3 as the source writes it. */
  method Tier3(cleaned: string) returns (choices: map<char, string>)
    requires '\n' !in cleaned
    ensures choices == Tier3Choices(cleaned)
  {
    choices := map[];
    var idx := 0;
    while idx < |ChoiceLetters|
      invariant 0 <= idx <= |ChoiceLetters|
      invariant Tier3Fold(choices, cleaned, ChoiceLetters[idx..]) == Tier3Choices(cleaned)
    {
      var letter := ChoiceLetters[idx];
      assert ChoiceLetters[idx..][1..] == ChoiceLetters[idx + 1..];
      var found := Tier3Search(cleaned, letter, 0);
      if found.Some? {
        StripChars(found.value);
        var text := Strip(found.value);
        text := DropFromFirstLabel(text);
        if text != "" && |text| > 3 {
          choices := choices[letter := text];
        }
      }
      idx := idx + 1;
    }
  }

  /** Stripping keeps a text free of labels. */
  lemma StripNoLabel(g: string)
    requires forall j: nat :: !LetterDotAt(g, j)
    ensures forall j: nat :: !LetterDotAt(Strip(g), j)
  {
    var t := Strip(g);
    forall j: nat ensures !LetterDotAt(t, j) {
      if j + 1 < |t| {
        assert t[j] == g[LeadWs(g) + j] && t[j + 1] == g[LeadWs(g) + j + 1];
        assert !LetterDotAt(g, LeadWs(g) + j);
      }
    }
  }

  /**
   * The `re.sub(r'[A-D]\..*$', '', text)` of tier 3 never changes anything: the
   * capture already stops at the first label, so the stored text is the
   * stripped capture.
   */
  lemma Tier3CutIsNoOp(s: string, letter: char)
    requires '\n' !in s
    requires Tier3Search(s, letter, 0).Some?
    ensures var g := Tier3Search(s, letter, 0).value;
      Tier3Text(s, letter) == if |Strip(g)| > 3 then Some(Strip(g)) else None
  {
    var g := Tier3Search(s, letter, 0).value;
    StripChars(g);
    StripNoLabel(g);
    assert FirstLetterDot(Strip(g)).None?;
    StripTrimmed(Strip(g));
  }

  /** What tier 3 keeps: texts longer than three characters, holding no label and not their own letter. */
  ghost predicate Tier3Shaped(m: map<char, string>) {
    forall k :: k in m ==>
      IsChoiceLetter(k) && Trimmed(m[k]) && |m[k]| > 3 && k !in m[k] &&
      forall j: nat :: !LetterDotAt(m[k], j)
  }

  lemma {:induction false} Tier3FoldShaped(acc: map<char, string>, s: string, letters: string)
    requires '\n' !in s && Tier3Shaped(acc)
    requires forall i :: 0 <= i < |letters| ==> IsChoiceLetter(letters[i])
    ensures Tier3Shaped(Tier3Fold(acc, s, letters))
    decreases |letters|
  {
    if letters != "" {
      var l := letters[0];
      if Tier3Text(s, l).Some? {
        var g := Tier3Search(s, l, 0).value;
        StripChars(g);
        var t := Tier3Text(s, l).value;
        assert forall c :: c in t ==> c in g;
      }
      var acc' := if Tier3Text(s, l).Some? then acc[l := Tier3Text(s, l).value] else acc;
      Tier3FoldShaped(acc', s, letters[1..]);
    }
  }

  lemma Tier3ChoicesShaped(cleaned: string)
    requires '\n' !in cleaned
    ensures Tier3Shaped(Tier3Choices(cleaned))
  {
    Tier3FoldShaped(map[], cleaned, ChoiceLetters);
  }

  // ---------------------------------------------------------------- all tiers

  /** The choices of the first tier that finds at least three, or tier 3's. */
  function Selected(text: string): (r: map<char, string>)
    ensures LabelledNonEmpty(r)
    ensures '\n' !in Collapse(text)
    ensures |Tier1Choices(Collapse(text))| >= 3 ==> r == Tier1Choices(Collapse(text))
    ensures |Tier1Choices(Collapse(text))| < 3 && |Tier2Choices(text)| >= 3 ==> r == Tier2Choices(text)
    ensures r == Tier1Choices(Collapse(text)) || r == Tier2Choices(text) ||
            r == Tier3Choices(Collapse(text))
    ensures |r| < 3 ==> r == Tier3Choices(Collapse(text))
  {
    var cleaned := Collapse(text);
    WellSpacedNoNewline(cleaned);
    Tier1ChoicesLabelled(cleaned);
    Tier2ChoicesLabelled(text);
    Tier3ChoicesShaped(cleaned);
    var t1 := Tier1Choices(cleaned);
    if |t1| >= 3 then t1
    else
      var t2 := Tier2Choices(text);
      if |t2| >= 3 then t2 else Tier3Choices(cleaned)
  }

  /** `extract_choices`: the selected tier's choices after the final cleanup. */
  function ExtractedChoices(text: string): (r: map<char, string>)
    ensures forall k :: k in r ==> IsChoiceLetter(k) && Trimmed(r[k]) && |r[k]| >= 3
  {
    CleanedChoices(TrailingLabel, Selected(text))
  }

  /**
   * After tier 1 the final cleanup only drops texts shorter than three
   * characters: a tier-1 text holds no label letter, so there is no trailing
   * label to remove.
   */
  lemma Tier1CleanupOnlyFilters(cleaned: string)
    ensures var t1 := Tier1Choices(cleaned);
      CleanedChoices(TrailingLabel, t1) == map k | k in t1 && |t1[k]| >= 3 :: t1[k]
  {
    Tier1ChoicesLabelled(cleaned);
    CleanupOnlyFilters(Tier1Choices(cleaned));
  }

  lemma CleanupOnlyFilters(m: map<char, string>)
    requires LabelledTexts(m) && NoLabelLetters(m)
    ensures CleanedChoices(TrailingLabel, m) == map k | k in m && |m[k]| >= 3 :: m[k]
  {
    forall k | k in m ensures DropTrailingLabel(m[k]) == m[k] {
      NoLabelLetterUntouched(m[k]);
    }
  }

  lemma NoLabelLetterUntouched(v: string)
    requires Trimmed(v) && NoLabelLetter(v)
    ensures DropTrailingLabel(v) == v
  {
    StripTrimmed(v);
    if |v| >= 2 {
      assert !IsChoiceLetter(v[|v| - 2]);
    }
  }

  /** A trimmed text without a label has no trailing label to drop. */
  lemma LabelFreeUntouched(v: string)
    requires Trimmed(v) && forall j: nat :: !LetterDotAt(v, j)
    ensures DropTrailingLabel(v) == v
  {
    StripTrimmed(v);
    if |v| >= 2 {
      assert !LetterDotAt(v, |v| - 2);
    }
  }

  /** The final cleanup leaves a map shaped like tier 3's output unchanged. */
  lemma ShapedSurvivesCleanup(m: map<char, string>)
    requires Tier3Shaped(m)
    ensures CleanedChoices(TrailingLabel, m) == m
  {
    forall k | k in m ensures DropTrailingLabel(m[k]) == m[k] {
      LabelFreeUntouched(m[k]);
    }
  }

  /**
   * After tier 3 the final cleanup changes nothing: every text is longer than
   * three characters and holds no label.
   */
  lemma Tier3SurvivesCleanup(cleaned: string)
    requires '\n' !in cleaned
    ensures CleanedChoices(TrailingLabel, Tier3Choices(cleaned)) == Tier3Choices(cleaned)
  {
    Tier3ChoicesShaped(cleaned);
    ShapedSurvivesCleanup(Tier3Choices(cleaned));
  }

  /** `extract_choices` as the source writes it. */
  method ExtractChoices(text: string) returns (choices: map<char, string>)
    ensures choices == ExtractedChoices(text)
  {
    var cleaned := Collapse(text);
    WellSpacedNoNewline(cleaned);
    choices := Tier1(cleaned);
    if |choices| < 3 {
      choices := Tier2(text);
    }
    if |choices| < 3 {
      choices := Tier3(cleaned);
    }
    choices := FinalCleanup(TrailingLabel, choices);
  }
}
