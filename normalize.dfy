/**
 * The two text normalisers: `clean_extracted_text` (study_app.py), run on text
 * extracted from the PDF, and `clean_ocr_text` (study_app_ocr.py), run on OCR
 * output. Each is the composition of the `re.sub` passes of module Rewrite in the
 * order of the source, followed by `strip()`.
 */
module Normalize {
  import opened Text
  import opened Rewrite

  /** The eight legal-term passes that `clean_extracted_text` runs twice. */
  const LegalTermRules: seq<Rule> := [
    LowerStateUpper, LowerWord("federal"), DigitsDays, LowerWord("after"),
    LowerWord("being"), LowerWord("served"), LowerWord("with"), LowerWord("process")
  ]

  /** The passes after the first two in the first round: number/word, legal anchors, amounts, legal terms, long runs. */
  const FirstRoundTail: seq<Rule> :=
    [DigitCapWord, LowerLegalTerm, Thousands] + LegalTermRules + [LongRunCapWord]

  /** The passes run after whitespace is collapsed. */
  const SecondRound: seq<Rule> := LegalTermRules + [LongRunCapWord]

  lemma RulesWellFormed()
    ensures forall i :: 0 <= i < |FirstRoundTail| ==> WellFormed(FirstRoundTail[i])
    ensures forall i :: 0 <= i < |SecondRound| ==> WellFormed(SecondRound[i])
  {
  }

  /**
   * `clean_extracted_text`. The result is trimmed, has single spaces as its only
   * whitespace (so no newline), keeps every non-whitespace character of the
   * input in order, and no lower-case letter or sentence end is directly
   * followed by an upper-case letter.
   */
  function CleanExtractedText(text: string): (r: string)
    ensures text == "" ==> r == ""
    ensures Trimmed(r) && WellSpaced(r)
    ensures RemoveWs(r) == RemoveWs(text)
    ensures Free(LowerUpper, r) && Free(PunctUpper, r)
  {
    if text == "" then text
    else
      RulesWellFormed();
      // line 164 and line 167
      var a := Pass(LowerUpperRule, text);
      LowerUpperPassSeparates(text);
      PassRemoveWs(LowerUpperRule, text);
      var b := Pass(PunctUpperRule, a);
      PassFree(PunctUpperRule, a, LowerUpper);
      PunctUpperPassSeparates(a);
      PassRemoveWs(PunctUpperRule, a);
      // lines 170-190
      var t1 := PassAll(FirstRoundTail, b);
      PassAllPreserves(FirstRoundTail, b);
      // line 193
      var t2 := Collapse(t1);
      CollapseFree(LowerUpper, t1);
      CollapseFree(PunctUpper, t1);
      CollapseRemoveWs(t1);
      // lines 196-207
      var t3 := PassAll(SecondRound, t2);
      PassAllPreserves(SecondRound, t2);
      // line 210: without a newline there is nothing to join
      WellSpacedNoNewline(t3);
      JoinBrokenLinesNoNewline(t3);
      var t4 := JoinBrokenLines(t3);
      // line 212
      StripPreserves(t4);
      RemoveWsStrip(t4);
      Strip(t4)
  }

  /**
   * The newline join of study_app.py:210 never fires: it runs after the pass
   * at study_app.py:193 has turned every newline into a space.
   */
  lemma NewlineJoinIsNoOp(s: string)
    ensures JoinBrokenLines(Collapse(s)) == Collapse(s)
  {
    WellSpacedNoNewline(Collapse(s));
    JoinBrokenLinesNoNewline(Collapse(s));
  }

  /**
   * `clean_ocr_text`. The result is trimmed, has single spaces as its only
   * whitespace (so no newline and the whole text is one line), holds no `|`,
   * no `rn`, and no sentence end directly followed by an upper-case letter.
   */
  function CleanOcrText(text: string): (r: string)
    ensures text == "" ==> r == ""
    ensures Trimmed(r) && WellSpaced(r)
    ensures '|' !in r
    ensures Free(RnPair, r) && Free(PunctUpper, r)
  {
    if text == "" then text
    else
      // line 155
      var t1 := RemovePageMarkers(text, false);
      // lines 158-162
      var t2 := BarToI(t1);
      var t3 := ZeroBeforeLetter(t2);
      MapChars(t2, t3, '0', 'O');
      var t4 := ZeroAfterLetter(t3);
      MapChars(t3, t4, '0', 'o');
      var t5 := RnToM(t4);
      var t6 := OneBetweenLower(t5);
      MapChars(t5, t6, '1', 'l');
      OneToLKeepsRnFree(t5);
      // line 165
      var t7 := Collapse(t6);
      CollapseChars(t6);
      CollapseFree(RnPair, t6);
      // line 166: nothing to fold once every newline is gone
      WellSpacedNoNewline(t7);
      FoldBlankLinesNoNewline(t7);
      var t8 := FoldBlankLines(t7);
      // line 169
      var t9 := Pass(PunctUpperRule, t8);
      PassFree(PunctUpperRule, t8, RnPair);
      PassFree(PunctUpperRule, t8, WsWs);
      PassOnlySpaces(PunctUpperRule, t8);
      PassChars(PunctUpperRule, t8);
      PunctUpperPassSeparates(t8);
      // line 171
      StripPreserves(t9);
      StripChars(t9);
      Strip(t9)
  }
}
