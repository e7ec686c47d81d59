/**
 * The line scanner shared by `extract_choices_ocr` and
 * `extract_choices_from_raw_text` (study_app_ocr.py): a line that starts with a
 * label `A.` .. `D.` opens a choice, the non-blank lines after it continue it,
 * and a choice is recorded when the next label (or the end) closes it and its
 * text is longer than three characters.
 */
module LineScan {
  import opened Text
  import Rewrite
  import Normalize
  import Splitter
  import Cleanup

  /** The scanner's variables: the open choice, its text pieces, the choices so far. */
  datatype ScanState = ScanState(current: Option<char>, pending: seq<string>, choices: map<char, string>)

  const Start: ScanState := ScanState(None, [], map[])

  /** `re.match(r'^([A-D])\.\s*(.*)', line)` on a line without newlines: the label and the text after it. */
  function ChoiceHead(line: string): (r: Option<(char, string)>)
    ensures r.Some? <==> StartsWithLetterDot(line)
    ensures r.Some? ==> IsChoiceLetter(r.value.0) && (r.value.1 == "" || !IsWs(r.value.1[0]))
  {
    if StartsWithLetterDot(line) then Some((line[0], StripLeft(line[2..]))) else None
  }

  /** The opening piece of a choice: its first line's text, when not empty. */
  function Opening(rest: string): seq<string> {
    if rest == "" then [] else [rest]
  }

  /** The text of the open choice: its pieces joined by spaces and stripped. */
  function Content(pending: seq<string>): string {
    Strip(Join(" ", pending))
  }

  /** The choices once the open choice, if any, is recorded. */
  function Flush(st: ScanState): map<char, string> {
    if st.current.Some? && |st.pending| > 0 && |Content(st.pending)| > 3 then
      st.choices[st.current.value := Content(st.pending)]
    else st.choices
  }

  /** One iteration of the loop over lines. */
  function Step(st: ScanState, raw: string): ScanState {
    var line := Strip(raw);
    if line == "" then st
    else
      match ChoiceHead(line)
      case Some((letter, rest)) => ScanState(Some(letter), Opening(rest), Flush(st))
      case None => if st.current.Some? then st.(pending := st.pending + [line]) else st
  }

  function Run(st: ScanState, lines: seq<string>): ScanState
    decreases |lines|
  {
    if lines == [] then st else Run(Step(st, lines[0]), lines[1..])
  }

  /** The choices the scan of `lines` records. */
  function ScanChoices(lines: seq<string>): map<char, string> {
    Flush(Run(Start, lines))
  }

  lemma RunUnfold(st: ScanState, lines: seq<string>, i: nat)
    requires i < |lines|
    ensures Run(st, lines[i..]) == Run(Step(st, lines[i]), lines[i + 1..])
  {
    assert lines[i..][0] == lines[i] && lines[i..][1..] == lines[i + 1..];
  }

  /** Records the open choice when it has text longer than three characters. */
  method FlushChoice(current: Option<char>, pending: seq<string>, choices: map<char, string>)
    returns (result: map<char, string>)
    ensures result == Flush(ScanState(current, pending, choices))
  {
    result := choices;
    if current.Some? && |pending| > 0 {
      var content := Strip(Join(" ", pending));
      if |content| > 3 {
        result := result[current.value := content];
      }
    }
  }

  /** The body of the loop over lines. */
  method ScanLine(current: Option<char>, pending: seq<string>, choices: map<char, string>, raw: string)
    returns (current': Option<char>, pending': seq<string>, choices': map<char, string>)
    ensures ScanState(current', pending', choices') == Step(ScanState(current, pending, choices), raw)
  {
    current', pending', choices' := current, pending, choices;
    var line := Strip(raw);
    if line == "" {
      return;
    }
    if StartsWithLetterDot(line) {
      choices' := FlushChoice(current, pending, choices);
      current' := Some(line[0]);
      var rest := StripLeft(line[2..]);
      pending' := if rest == "" then [] else [rest];
    } else if current.Some? {
      pending' := pending + [line];
    }
  }

  /** The loop of the two extractors over the lines of the text. */
  method ScanChoiceLines(lines: seq<string>) returns (choices: map<char, string>)
    ensures choices == ScanChoices(lines)
  {
    var current: Option<char> := None;
    var pending: seq<string> := [];
    choices := map[];
    var i := 0;
    while i < |lines|
      invariant 0 <= i <= |lines|
      invariant Run(ScanState(current, pending, choices), lines[i..]) == Run(Start, lines)
    {
      RunUnfold(ScanState(current, pending, choices), lines, i);
      current, pending, choices := ScanLine(current, pending, choices, lines[i]);
      i := i + 1;
    }
    choices := FlushChoice(current, pending, choices);
  }

  // ---------------------------------------------------------------------------
  // What every recorded choice looks like

  /** Keys are labels; texts are stripped, one line, and longer than three characters. */
  predicate WellFormedChoices(m: map<char, string>) {
    forall k :: k in m ==> IsChoiceLetter(k) && Trimmed(m[k]) && |m[k]| > 3 && '\n' !in m[k]
  }

  predicate NoNewlines(lines: seq<string>) {
    forall i :: 0 <= i < |lines| ==> '\n' !in lines[i]
  }

  predicate Good(st: ScanState) {
    (st.current.Some? ==> IsChoiceLetter(st.current.value))
    && NoNewlines(st.pending)
    && WellFormedChoices(st.choices)
  }

  lemma ContentNoNewline(pending: seq<string>)
    requires NoNewlines(pending)
    ensures '\n' !in Content(pending)
  {
    JoinChars(" ", pending);
    StripChars(Join(" ", pending));
  }

  lemma FlushGood(st: ScanState)
    requires Good(st)
    ensures WellFormedChoices(Flush(st))
  {
    ContentNoNewline(st.pending);
  }

  lemma StepGood(st: ScanState, raw: string)
    requires Good(st) && '\n' !in raw
    ensures Good(Step(st, raw))
  {
    var line := Strip(raw);
    StripChars(raw);
    FlushGood(st);
    if line != "" && StartsWithLetterDot(line) {
      assert forall c :: c in line[2..] ==> c in line;
    }
  }

  lemma {:induction false} RunGood(st: ScanState, lines: seq<string>)
    requires Good(st) && NoNewlines(lines)
    ensures Good(Run(st, lines))
    decreases |lines|
  {
    if lines != [] {
      StepGood(st, lines[0]);
      RunGood(Step(st, lines[0]), lines[1..]);
    }
  }

  /** Lines without newlines give well-formed choices. */
  lemma ScanChoicesWellFormed(lines: seq<string>)
    requires NoNewlines(lines)
    ensures WellFormedChoices(ScanChoices(lines))
  {
    RunGood(Start, lines);
    FlushGood(Run(Start, lines));
  }

  // ---------------------------------------------------------------------------
  // How the scan reads a text block by block

  lemma {:induction false} RunAppend(st: ScanState, a: seq<string>, b: seq<string>)
    ensures Run(st, a + b) == Run(Run(st, a), b)
    decreases |a|
  {
    if a != [] {
      assert (a + b)[0] == a[0] && (a + b)[1..] == a[1..] + b;
      RunAppend(Step(st, a[0]), a[1..], b);
    } else {
      assert a + b == b;
    }
  }

  predicate IsHeadLine(raw: string) {
    StartsWithLetterDot(Strip(raw))
  }

  predicate NoHeads(lines: seq<string>) {
    forall i :: 0 <= i < |lines| ==> !IsHeadLine(lines[i])
  }

  /** The stripped, non-blank lines: what continuation lines add to a choice. */
  function NonBlank(lines: seq<string>): seq<string> {
    if lines == [] then []
    else (if Strip(lines[0]) == "" then [] else [Strip(lines[0])]) + NonBlank(lines[1..])
  }

  /** Before any label is seen, lines change nothing. */
  lemma {:induction false} NoHeadsBeforeFirstChoice(lines: seq<string>)
    requires NoHeads(lines)
    ensures Run(Start, lines) == Start
    decreases |lines|
  {
    if lines != [] {
      assert Step(Start, lines[0]) == Start;
      NoHeadsBeforeFirstChoice(lines[1..]);
    }
  }

  /** With a choice open, non-label lines are appended to it. */
  lemma {:induction false} ContinuationLines(st: ScanState, lines: seq<string>)
    requires st.current.Some? && NoHeads(lines)
    ensures Run(st, lines) == st.(pending := st.pending + NonBlank(lines))
    decreases |lines|
  {
    if lines != [] {
      var next := Step(st, lines[0]);
      assert next == st.(pending := st.pending + (if Strip(lines[0]) == "" then [] else [Strip(lines[0])]));
      ContinuationLines(next, lines[1..]);
    }
  }

  /**
   * A text that ends with a labelled line and its continuation lines records
   * that choice last: the choices are those of the text before the block,
   * with the block's choice set (overwriting an earlier one with the same
   * label) when its text is longer than three characters.
   */
  lemma FinalBlock(lines: seq<string>, head: string, cont: seq<string>)
    requires IsHeadLine(head) && NoHeads(cont)
    ensures var line := Strip(head);
            var content := Content(Opening(StripLeft(line[2..])) + NonBlank(cont));
            ScanChoices(lines + [head] + cont) ==
              if |content| > 3 then ScanChoices(lines)[line[0] := content] else ScanChoices(lines)
  {
    var line := Strip(head);
    var st := Run(Start, lines);
    var openSt := Step(st, head);
    assert openSt == ScanState(Some(line[0]), Opening(StripLeft(line[2..])), Flush(st));
    RunAppend(Start, lines + [head], cont);
    RunAppend(Start, lines, [head]);
    assert Run(st, [head]) == openSt;
    ContinuationLines(openSt, cont);
    assert Join(" ", []) == "";
  }

  /** Text before the first label and one labelled block give exactly that block's choice. */
  lemma SingleChoiceBlock(preamble: seq<string>, head: string, cont: seq<string>)
    requires NoHeads(preamble) && IsHeadLine(head) && NoHeads(cont)
    ensures var line := Strip(head);
            var content := Content(Opening(StripLeft(line[2..])) + NonBlank(cont));
            ScanChoices(preamble + [head] + cont) ==
              if |content| > 3 then map[line[0] := content] else map[]
  {
    FinalBlock(preamble, head, cont);
    NoHeadsBeforeFirstChoice(preamble);
  }

  /** A single line records at most one choice. */
  lemma OneLineAtMostOneChoice(line: string)
    ensures |ScanChoices([line]).Keys| <= 1
  {
    assert Run(Start, [line]) == Step(Start, [line][0]);
  }

  /** The label that wins: a later block with the same label replaces the earlier text. */
  lemma RepeatedLabelOverwrites(lines: seq<string>, head: string, cont: seq<string>)
    requires IsHeadLine(head) && NoHeads(cont)
    requires |Content(Opening(StripLeft(Strip(head)[2..])) + NonBlank(cont))| > 3
    ensures Strip(head)[0] in ScanChoices(lines + [head] + cont)
    ensures ScanChoices(lines + [head] + cont)[Strip(head)[0]] ==
            Content(Opening(StripLeft(Strip(head)[2..])) + NonBlank(cont))
  {
    FinalBlock(lines, head, cont);
  }

  // ---------------------------------------------------------------------------
  // extract_choices_from_raw_text

  /**
   * The choices read from the raw OCR text: nothing for a missing or empty
   * text, otherwise the scan of the lines of the stripped part before the
   * first `Explanation:`.
   */
  function RawTextChoices(raw: Option<string>): (r: map<char, string>)
    ensures raw.None? || raw.value == "" ==> r == map[]
    ensures WellFormedChoices(r)
  {
    if raw.None? || raw.value == "" then map[]
    else
      var lines := Split(Strip(Before(raw.value, Splitter.ExplanationMarker)), '\n');
      ScanChoicesWellFormed(lines);
      ScanChoices(lines)
  }

  method ExtractChoicesFromRawText(raw: Option<string>) returns (choices: map<char, string>)
    ensures choices == RawTextChoices(raw)
  {
    if raw.None? || raw.value == "" {
      return map[];
    }
    var questionOnly := Strip(Before(raw.value, Splitter.ExplanationMarker));
    var lines := Split(questionOnly, '\n');
    choices := ScanChoiceLines(lines);
  }

  /** The explanation never contributes a choice: only the text before the first marker is read. */
  lemma RawChoicesIgnoreExplanation(raw: string)
    ensures RawTextChoices(Some(raw)) == RawTextChoices(Some(Before(raw, Splitter.ExplanationMarker)))
  {
    BeforeIdempotent(raw, Splitter.ExplanationMarker);
    if raw != "" && Before(raw, Splitter.ExplanationMarker) == "" {
      assert Split(Strip(""), '\n') == [""];
      assert Run(Start, [""]) == Step(Start, "");
    }
  }

  // ---------------------------------------------------------------------------
  // extract_choices_ocr

  /**
   * The choices `extract_choices_ocr` returns. The cleaned OCR text holds no
   * newline, so the scan sees a single line and records at most one choice;
   * the final cleanup then cuts every choice at its first label.
   */
  function OcrChoices(questionText: string): (r: map<char, string>)
    ensures |r.Keys| <= 1
    ensures forall k :: k in r ==> IsChoiceLetter(k) && Trimmed(r[k]) && |r[k]| >= 3
    ensures forall k, j: nat :: k in r ==> !LetterDotAt(r[k], j)
  {
    var cleaned := Normalize.CleanOcrText(questionText);
    var unmarked := Rewrite.RemovePageMarkers(cleaned, true);
    WellSpacedNoNewline(cleaned);
    var scanned := ScanChoices(Split(unmarked, '\n'));
    ScanOfOneLine(unmarked);
    CleanedAtMostOne(scanned);
    Cleanup.CleanedChoices(Cleanup.FirstLabel, scanned)
  }

  /** A text without newlines is one line: at most one well-formed choice. */
  lemma ScanOfOneLine(text: string)
    requires '\n' !in text
    ensures |ScanChoices(Split(text, '\n')).Keys| <= 1
    ensures WellFormedChoices(ScanChoices(Split(text, '\n')))
  {
    SplitWithoutSeparator(text, '\n');
    OneLineAtMostOneChoice(text);
    ScanChoicesWellFormed([text]);
  }

  lemma CleanedAtMostOne(m: map<char, string>)
    requires |m.Keys| <= 1 && WellFormedChoices(m)
    ensures Cleanup.SingleLineValues(m)
    ensures |Cleanup.CleanedChoices(Cleanup.FirstLabel, m).Keys| <= 1
    ensures forall k :: k in Cleanup.CleanedChoices(Cleanup.FirstLabel, m) ==> IsChoiceLetter(k) && m[k] != ""
  {
    var r := Cleanup.CleanedChoices(Cleanup.FirstLabel, m);
    assert r.Keys <= m.Keys;
    SubsetCardinality(r.Keys, m.Keys);
  }

  lemma SubsetCardinality(a: set<char>, b: set<char>)
    requires a <= b
    ensures |a| <= |b|
  {
    if a != {} {
      var x :| x in a;
      SubsetCardinality(a - {x}, b - {x});
    }
  }

  method ExtractChoicesOcr(questionText: string) returns (choices: map<char, string>)
    ensures choices == OcrChoices(questionText)
  {
    var cleaned := Normalize.CleanOcrText(questionText);
    var unmarked := Rewrite.RemovePageMarkers(cleaned, true);
    var lines := Split(unmarked, '\n');
    var scanned := ScanChoiceLines(lines);
    ScanChoicesWellFormed(lines);
    choices := Cleanup.FinalCleanup(Cleanup.FirstLabel, scanned);
  }
}
