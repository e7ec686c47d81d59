/**
 * The stem isolators: the question text without its choices.
 *
 *  - The OCR viewer (`clean_question_text_ocr` and the loop inside
 *    `get_cached_question_data`, study_app_ocr.py) keeps the non-blank lines
 *    before the first line that starts a choice, joined by spaces.
 *  - The PDF-text viewer (`clean_question_text`, study_app.py) drops every line
 *    that starts a choice, removes the extracted choice texts and any remaining
 *    labelled runs, and collapses the whitespace.
 */
module Stem {
  import opened Text
  import Rewrite
  import Normalize
  import Splitter
  import LineScan
  import opened Cleanup

  /** `re.match(r'^[A-D]\.\s', line)`: the line starts a choice. */
  predicate IsChoiceLine(line: string) {
    LetterDotAt(line, 0) && |line| > 2 && IsWs(line[2])
  }

  // ---------------------------------------------------------------------------
  // The OCR stem: non-blank lines up to the first choice line

  /** The stripped, non-blank lines before the first choice line. */
  function StemLines(lines: seq<string>): (r: seq<string>)
    ensures forall i :: 0 <= i < |r| ==> r[i] != "" && Trimmed(r[i]) && !IsChoiceLine(r[i])
    decreases |lines|
  {
    if lines == [] then []
    else
      var line := Strip(lines[0]);
      if line == "" then StemLines(lines[1..])
      else if IsChoiceLine(line) then []
      else [line] + StemLines(lines[1..])
  }

  /** The index of the first choice line, or the number of lines when there is none. */
  function FirstChoiceLine(lines: seq<string>): (k: nat)
    ensures k <= |lines|
    ensures forall i :: 0 <= i < k ==> !IsChoiceLine(Strip(lines[i]))
    ensures k < |lines| ==> IsChoiceLine(Strip(lines[k]))
    decreases |lines|
  {
    if lines == [] then 0
    else if IsChoiceLine(Strip(lines[0])) then 0
    else 1 + FirstChoiceLine(lines[1..])
  }

  /** The stem is exactly the non-blank lines before the first choice line. */
  lemma {:induction false} StemIsNonBlankPrefix(lines: seq<string>)
    ensures StemLines(lines) == LineScan.NonBlank(lines[..FirstChoiceLine(lines)])
    decreases |lines|
  {
    if lines != [] {
      if IsChoiceLine(Strip(lines[0])) {
        assert Strip(lines[0]) != "";
      } else {
        StemIsNonBlankPrefix(lines[1..]);
        StemIsNonBlankPrefixStep(lines);
      }
    }
  }

  /** One line that does not start a choice, in front of lines already known to satisfy the claim. */
  lemma StemIsNonBlankPrefixStep(lines: seq<string>)
    requires lines != [] && !IsChoiceLine(Strip(lines[0]))
    requires StemLines(lines[1..]) == LineScan.NonBlank(lines[1..][..FirstChoiceLine(lines[1..])])
    ensures StemLines(lines) == LineScan.NonBlank(lines[..FirstChoiceLine(lines)])
  {
    var k := FirstChoiceLine(lines);
    assert lines[..k][1..] == lines[1..][..k - 1];
  }

  /** Scanning stops at the first choice line: nothing after it reaches the stem. */
  lemma {:induction false} StemStopsAtFirstChoice(before: seq<string>, choice: string, after: seq<string>)
    requires forall i :: 0 <= i < |before| ==> !IsChoiceLine(Strip(before[i]))
    requires IsChoiceLine(Strip(choice))
    ensures StemLines(before + [choice] + after) == LineScan.NonBlank(before)
    decreases |before|
  {
    if before == [] {
      assert (before + [choice] + after)[0] == choice;
    } else {
      assert (before + [choice] + after)[1..] == before[1..] + [choice] + after;
      StemStopsAtFirstChoice(before[1..], choice, after);
    }
  }

  lemma StemLinesUnfold(lines: seq<string>, i: nat)
    requires i < |lines|
    ensures StemLines(lines[i..]) ==
      (var line := Strip(lines[i]);
       if line == "" then StemLines(lines[i + 1..])
       else if IsChoiceLine(line) then []
       else [line] + StemLines(lines[i + 1..]))
  {
    assert lines[i..][0] == lines[i] && lines[i..][1..] == lines[i + 1..];
  }

  /** The loop that collects the stem lines and breaks at the first choice line. */
  method CollectStemLines(lines: seq<string>) returns (stem: seq<string>)
    ensures stem == StemLines(lines)
  {
    stem := [];
    var i := 0;
    while i < |lines|
      invariant 0 <= i <= |lines|
      invariant stem + StemLines(lines[i..]) == StemLines(lines)
    {
      StemLinesUnfold(lines, i);
      var line := Strip(lines[i]);
      if line != "" {
        if IsChoiceLine(line) {
          assert stem + [] == stem;
          break;
        }
        assert stem + [line] + StemLines(lines[i + 1..]) == stem + ([line] + StemLines(lines[i + 1..]));
        stem := stem + [line];
      }
      i := i + 1;
    }
  }

  /** `re.sub(r'\s+', ' ', ' '.join(stem)).strip()` */
  function JoinStem(stem: seq<string>): (r: string)
    ensures Trimmed(r) && WellSpaced(r)
    ensures |stem| == 0 ==> r == ""
  {
    var c := Collapse(Join(" ", stem));
    StripPreserves(c);
    Strip(c)
  }

  /**
   * The display stem built in `get_cached_question_data`: the stem lines of
   * the stripped text before the first `Explanation:`.
   */
  function FinalQuestion(raw: string): (r: string)
    ensures Trimmed(r) && WellSpaced(r)
  {
    JoinStem(StemLines(Split(Strip(Before(raw, Splitter.ExplanationMarker)), '\n')))
  }

  /**
   * `clean_question_text_ocr`: the stem of the cleaned OCR text with page
   * markers removed. The `choices` argument of the source is not used by it.
   */
  function OcrQuestionStem(questionText: string): (r: string)
    ensures Trimmed(r) && WellSpaced(r)
  {
    JoinStem(StemLines(Split(Rewrite.RemovePageMarkers(Normalize.CleanOcrText(questionText), true), '\n')))
  }

  method CleanQuestionTextOcr(questionText: string) returns (r: string)
    ensures r == OcrQuestionStem(questionText)
  {
    var cleaned := Normalize.CleanOcrText(questionText);
    cleaned := Rewrite.RemovePageMarkers(cleaned, true);
    var lines := Split(cleaned, '\n');
    var stem := CollectStemLines(lines);
    var joined := Join(" ", stem);
    r := Strip(Collapse(joined));
  }

  /**
   * The cleaned OCR text is one line, so the stem is that whole line, or
   * nothing when the line itself starts a choice.
   */
  lemma OcrStemIsWholeLine(questionText: string)
    ensures var line := Strip(Rewrite.RemovePageMarkers(Normalize.CleanOcrText(questionText), true));
            OcrQuestionStem(questionText) ==
              if line == "" || IsChoiceLine(line) then "" else Strip(Collapse(line))
  {
    var cleaned := Normalize.CleanOcrText(questionText);
    var unmarked := Rewrite.RemovePageMarkers(cleaned, true);
    WellSpacedNoNewline(cleaned);
    SplitWithoutSeparator(unmarked, '\n');
    StemOfOneLine(unmarked);
  }

  lemma StemOfOneLine(line: string)
    ensures StemLines([line]) ==
      if Strip(line) == "" || IsChoiceLine(Strip(line)) then [] else [Strip(line)]
  {
    assert [line][1..] == [];
  }

  // ---------------------------------------------------------------------------
  // clean_question_text: every choice line dropped

  /** The stripped lines that do not start a choice; blank lines are kept. */
  function KeptLines(lines: seq<string>): (r: seq<string>)
    ensures |r| <= |lines|
    ensures forall i :: 0 <= i < |r| ==> !IsChoiceLine(r[i]) && Trimmed(r[i])
    decreases |lines|
  {
    if lines == [] then []
    else
      var line := Strip(lines[0]);
      (if IsChoiceLine(line) then [] else [line]) + KeptLines(lines[1..])
  }

  /** Unlike the OCR stem, a choice line drops only itself: the lines after it stay. */
  lemma {:induction false} KeptLinesDropEveryChoiceLine(before: seq<string>, choice: string, after: seq<string>)
    requires IsChoiceLine(Strip(choice))
    ensures KeptLines(before + [choice] + after) == KeptLines(before) + KeptLines(after)
    decreases |before|
  {
    if before == [] {
      assert (before + [choice] + after)[0] == choice;
      assert (before + [choice] + after)[1..] == after;
    } else {
      assert (before + [choice] + after)[1..] == before[1..] + [choice] + after;
      KeptLinesDropEveryChoiceLine(before[1..], choice, after);
      assert [Strip(before[0])] + (KeptLines(before[1..]) + KeptLines(after)) ==
             ([Strip(before[0])] + KeptLines(before[1..])) + KeptLines(after);
    }
  }

  lemma KeptLinesUnfold(lines: seq<string>, i: nat)
    requires i < |lines|
    ensures KeptLines(lines[i..]) ==
      (if IsChoiceLine(Strip(lines[i])) then [] else [Strip(lines[i])]) + KeptLines(lines[i + 1..])
  {
    assert lines[i..][0] == lines[i] && lines[i..][1..] == lines[i + 1..];
  }

  /** The loop that keeps the lines not starting a choice. */
  method FilterChoiceLines(lines: seq<string>) returns (kept: seq<string>)
    ensures kept == KeptLines(lines)
  {
    kept := [];
    var i := 0;
    while i < |lines|
      invariant 0 <= i <= |lines|
      invariant kept + KeptLines(lines[i..]) == KeptLines(lines)
    {
      KeptLinesUnfold(lines, i);
      var line := Strip(lines[i]);
      if !IsChoiceLine(line) {
        assert kept + [line] + KeptLines(lines[i + 1..]) == kept + ([line] + KeptLines(lines[i + 1..]));
        kept := kept + [line];
      } else {
        assert [] + KeptLines(lines[i + 1..]) == KeptLines(lines[i + 1..]);
      }
      i := i + 1;
    }
  }

  /**
   * The loop over `A`..`D` that deletes every occurrence of each extracted,
   * non-empty choice text found in the question.
   */
  function RemoveChoiceTexts(text: string, choices: map<char, string>, letters: string): (r: string)
    ensures |r| <= |text|
    ensures forall c :: c in r ==> c in text
    decreases |letters|
  {
    if letters == [] then text
    else
      var letter := letters[0];
      var t := if letter in choices && choices[letter] != "" && Contains(text, choices[letter])
               then RemoveAll(text, choices[letter]) else text;
      RemoveChoiceTexts(t, choices, letters[1..])
  }

  /** Only choice texts that occur are removed: a text holding none of them is unchanged. */
  lemma {:induction false} RemoveChoiceTextsAbsent(text: string, choices: map<char, string>, letters: string)
    requires forall k :: k in choices && choices[k] != "" ==> !Contains(text, choices[k])
    ensures RemoveChoiceTexts(text, choices, letters) == text
    decreases |letters|
  {
    if letters != [] {
      RemoveChoiceTextsAbsent(text, choices, letters[1..]);
    }
  }

  /**
   * A letter whose text occurs: every occurrence of it is removed, and then the
   * other letters are handled. `Text.RemoveAllFirst` splits that removal at the
   * first occurrence.
   */
  lemma RemoveChoiceTextsFirst(text: string, choices: map<char, string>, letters: string)
    requires letters != [] && letters[0] in choices && choices[letters[0]] != ""
    requires Find(text, choices[letters[0]]).Some?
    ensures RemoveChoiceTexts(text, choices, letters) ==
            RemoveChoiceTexts(RemoveAll(text, choices[letters[0]]), choices, letters[1..])
  {
    FindContains(text, choices[letters[0]]);
  }

  /** A letter with no text, an empty text or a text that does not occur changes nothing. */
  lemma RemoveChoiceTextsSkip(text: string, choices: map<char, string>, letters: string)
    requires letters != []
    requires letters[0] !in choices || choices[letters[0]] == "" || Find(text, choices[letters[0]]).None?
    ensures RemoveChoiceTexts(text, choices, letters) == RemoveChoiceTexts(text, choices, letters[1..])
  {
    if letters[0] in choices && choices[letters[0]] != "" {
      FindContains(text, choices[letters[0]]);
    }
  }

  /** The first letter's text, when it occurs, goes with at least its own length. */
  lemma RemoveFirstChoiceShrinks(text: string, choices: map<char, string>, j: nat)
    requires 'A' in choices && choices['A'] != "" && OccursAt(text, choices['A'], j)
    ensures |RemoveChoiceTexts(text, choices, ChoiceLetters)| <= |text| - |choices['A']|
  {
    RemoveAllShrinks(text, choices['A'], j);
    assert Contains(text, choices['A']);
  }

  /**
   * Does `\b[A-D]\.\s*[^.]*?\s*(?=[A-D]\.|$)` match at `i` of a one-line text?
   * The label must follow a non-word character (or start the text); the match
   * then runs to the next label or the end, and fails if a `.` lies between.
   */
  function WipeMatch(s: string, i: nat): (e: Option<nat>)
    ensures e.Some? ==> i + 2 <= e.value <= |s|
    ensures e.Some? ==> LetterDotAt(s, i) && (i == 0 || !IsWordChar(s[i - 1]))
    ensures e.Some? ==> (e.value == |s| || LetterDotAt(s, e.value)) &&
                        (forall k: nat :: i + 2 <= k < e.value ==> !LetterDotAt(s, k)) &&
                        '.' !in s[i + 2..e.value]
    ensures e.None? && LetterDotAt(s, i) && (i == 0 || !IsWordChar(s[i - 1])) ==>
              '.' in s[i + 2..LabelOrEnd(s, i + 2)]
  {
    if LetterDotAt(s, i) && (i == 0 || !IsWordChar(s[i - 1])) then
      var e := LabelOrEnd(s, i + 2);
      if '.' in s[i + 2..e] then None else Some(e)
    else None
  }

  /** `re.sub(r'\b[A-D]\.\s*[^.]*?\s*(?=[A-D]\.|$)', '', s[i..])`, boundaries read in `s`. */
  function Wipe(s: string, i: nat): (r: string)
    requires i <= |s|
    ensures |r| <= |s| - i
    ensures forall c :: c in r ==> c in s
    decreases |s| - i
  {
    if i == |s| then ""
    else
      match WipeMatch(s, i)
      case Some(e) => Wipe(s, e)
      case None => [s[i]] + Wipe(s, i + 1)
  }

  /** A text without a choice label is left alone. */
  lemma {:induction false} WipeNoLabel(s: string, i: nat)
    requires i <= |s|
    requires forall k: nat :: !LetterDotAt(s, k)
    ensures Wipe(s, i) == s[i..]
    decreases |s| - i
  {
    if i < |s| {
      WipeNoLabel(s, i + 1);
      assert s[i..] == [s[i]] + s[i + 1..];
    }
  }

  /** Characters where no labelled run matches are kept as they are. */
  lemma {:induction false} WipeUpTo(s: string, i: nat, k: nat)
    requires i <= k <= |s|
    requires forall j: nat :: i <= j < k ==> WipeMatch(s, j).None?
    ensures Wipe(s, i) == s[i..k] + Wipe(s, k)
    decreases k - i
  {
    if i < k {
      WipeUpTo(s, i + 1, k);
      WipeKeep(s, i);
      PrependSlice(s, i, k, Wipe(s, i), Wipe(s, i + 1), Wipe(s, k));
    }
  }

  /** A character where no labelled run matches is kept. */
  lemma WipeKeep(s: string, i: nat)
    requires i < |s| && WipeMatch(s, i).None?
    ensures Wipe(s, i) == [s[i]] + Wipe(s, i + 1)
  {
  }

  lemma PrependSlice(s: string, i: nat, k: nat, x: string, y: string, z: string)
    requires i < k <= |s|
    requires x == [s[i]] + y && y == s[i + 1..k] + z
    ensures x == s[i..k] + z
  {
    assert s[i..k] == [s[i]] + s[i + 1..k];
  }

  /**
   * The first labelled run, at `k`, is removed up to where its match ends;
   * the text before it stays, and the removal goes on after the run.
   */
  lemma WipeFirst(s: string, i: nat, k: nat)
    requires i <= k < |s| && WipeMatch(s, k).Some?
    requires forall j: nat :: i <= j < k ==> WipeMatch(s, j).None?
    ensures Wipe(s, i) == s[i..k] + Wipe(s, WipeMatch(s, k).value)
  {
    WipeUpTo(s, i, k);
  }

  /**
   * What `clean_question_text` computes: the cleaned text with every choice
   * line dropped, the choice texts and labelled runs removed, and the
   * whitespace collapsed.
   */
  function QuestionStem(questionText: string, choices: map<char, string>): (r: string)
    ensures Trimmed(r) && WellSpaced(r)
  {
    var clean := Normalize.CleanExtractedText(questionText);
    var kept := KeptLines(Split(clean, '\n'));
    var joined := Join("\n", kept);
    var removed := RemoveChoiceTexts(joined, choices, ChoiceLetters);
    var wiped := Wipe(removed, 0);
    var c := Collapse(Rewrite.CapNewlines(Rewrite.FoldBlankLines(wiped)));
    StripPreserves(c);
    Strip(c)
  }

  method CleanQuestionText(questionText: string, choices: map<char, string>) returns (r: string)
    ensures r == QuestionStem(questionText, choices)
  {
    var clean := Normalize.CleanExtractedText(questionText);
    var lines := Split(clean, '\n');
    var kept := FilterChoiceLines(lines);
    clean := Join("\n", kept);
    var idx := 0;
    while idx < |ChoiceLetters|
      invariant 0 <= idx <= |ChoiceLetters|
      invariant RemoveChoiceTexts(clean, choices, ChoiceLetters[idx..]) ==
                RemoveChoiceTexts(Join("\n", kept), choices, ChoiceLetters)
    {
      var letter := ChoiceLetters[idx];
      assert ChoiceLetters[idx..][1..] == ChoiceLetters[idx + 1..];
      if letter in choices && choices[letter] != "" {
        var choiceText := choices[letter];
        if Contains(clean, choiceText) {
          clean := RemoveAll(clean, choiceText);
        }
      }
      idx := idx + 1;
    }
    clean := Wipe(clean, 0);
    clean := Rewrite.FoldBlankLines(clean);
    clean := Rewrite.CapNewlines(clean);
    clean := Collapse(clean);
    r := Strip(clean);
  }

  /**
   * A question whose cleaned text neither starts a choice nor holds a label or
   * any extracted choice text comes back as the cleaned text itself.
   */
  lemma QuestionStemOfPlainText(questionText: string, choices: map<char, string>)
    requires var clean := Normalize.CleanExtractedText(questionText);
             (forall k: nat :: !LetterDotAt(clean, k)) &&
             (forall k :: k in choices && choices[k] != "" ==> !Contains(clean, choices[k]))
    ensures QuestionStem(questionText, choices) == Normalize.CleanExtractedText(questionText)
  {
    var clean := Normalize.CleanExtractedText(questionText);
    WellSpacedNoNewline(clean);
    SplitWithoutSeparator(clean, '\n');
    StripTrimmed(clean);
    assert !IsChoiceLine(clean);
    assert KeptLines([clean]) == [clean];
    RemoveChoiceTextsAbsent(clean, choices, ChoiceLetters);
    WipeNoLabel(clean, 0);
    Rewrite.FoldBlankLinesNoNewline(clean);
    Rewrite.CapNewlinesNoNewline(clean);
    CollapseWellSpaced(clean);
  }
}
