/**
 * `parse_question_and_explanation` in both viewers: the page text is cut at the
 * first `Explanation:` marker into the question part and the explanation part.
 * The OCR viewer cleans the text with `clean_ocr_text` first.
 */
module Splitter {
  import opened Text
  import Normalize

  const ExplanationMarker: string := "Explanation:"
  const NoExplanation: string := "No explanation available."

  datatype Parsed = Parsed(question: string, explanation: string)

  /**
   * `text.split("Explanation:")`, keeping the stripped first piece and the
   * stripped second piece, or the fixed placeholder when there is no marker.
   * Neither part holds the marker; without a marker the question is the whole
   * stripped text.
   */
  function SplitAtMarker(text: string): (p: Parsed)
    ensures Trimmed(p.question) && Trimmed(p.explanation)
    ensures !Contains(p.question, ExplanationMarker)
    ensures After(text, ExplanationMarker).None? ==>
      p.question == Strip(text) && p.explanation == NoExplanation
    ensures After(text, ExplanationMarker).Some? ==> !Contains(p.explanation, ExplanationMarker)
  {
    var head := Before(text, ExplanationMarker);
    StripNoOccurrence(head, ExplanationMarker);
    BeforeAfterRoundTrip(text, ExplanationMarker);
    match After(text, ExplanationMarker)
    case None =>
      assert Trimmed(NoExplanation);
      Parsed(Strip(head), NoExplanation)
    case Some(rest) =>
      var second := Before(rest, ExplanationMarker);
      StripNoOccurrence(second, ExplanationMarker);
      Parsed(Strip(head), Strip(second))
  }

  /**
   * A marker preceded by marker-free text is the first one: splitting there
   * gives that text and everything after the marker.
   */
  lemma FirstMarker(x: string, y: string)
    requires !Contains(x, ExplanationMarker)
    ensures Find(x + ExplanationMarker + y, ExplanationMarker) == Some(|x|)
    ensures Before(x + ExplanationMarker + y, ExplanationMarker) == x
    ensures After(x + ExplanationMarker + y, ExplanationMarker) == Some(y)
  {
    var text := x + ExplanationMarker + y;
    var m := |x|;
    assert OccursAt(text, ExplanationMarker, m) by {
      assert text[m..m + |ExplanationMarker|] == ExplanationMarker;
    }
    forall j | 0 <= j < m ensures !OccursAt(text, ExplanationMarker, j) {
      if j + |ExplanationMarker| <= m {
        assert text[j..j + |ExplanationMarker|] == x[j..j + |ExplanationMarker|];
        assert !OccursAt(x, ExplanationMarker, j);
      } else if j + |ExplanationMarker| <= |text| {
        // 'E' opens the marker and occurs nowhere else in it, so an occurrence
        // starting before `m` cannot overlap the one at `m`.
        assert text[j..j + |ExplanationMarker|][m - j] == text[m] == 'E';
        assert ExplanationMarker[m - j] != 'E';
      }
    }
    assert Find(text, ExplanationMarker) == Some(m);
    assert text[m + |ExplanationMarker|..] == y;
    assert text[..m] == x;
  }

  /**
   * With exactly one marker the two parts are the stripped text on either
   * side of it: the text is `before + "Explanation:" + after`.
   */
  lemma SplitAtSingleMarker(text: string, before: string, after: string)
    requires text == before + ExplanationMarker + after
    requires !Contains(before, ExplanationMarker) && !Contains(after, ExplanationMarker)
    ensures SplitAtMarker(text) == Parsed(Strip(before), Strip(after))
  {
    FirstMarker(before, after);
    FindContains(after, ExplanationMarker);
  }

  /**
   * `parts[1]` is the text between the first and the second marker: whatever
   * follows a second marker is not part of the explanation.
   */
  lemma SplitAtTwoMarkers(text: string, before: string, mid: string, rest: string)
    requires text == before + ExplanationMarker + mid + ExplanationMarker + rest
    requires !Contains(before, ExplanationMarker) && !Contains(mid, ExplanationMarker)
    ensures SplitAtMarker(text) == Parsed(Strip(before), Strip(mid))
  {
    var tail := mid + ExplanationMarker + rest;
    assert text == before + ExplanationMarker + tail;
    FirstMarker(before, tail);
    FirstMarker(mid, rest);
  }

  /**
   * `parse_question_and_explanation` of study_app.py: no parts for a missing
   * or empty text, otherwise the split at the first marker.
   */
  function ParseQuestionAndExplanation(text: Option<string>): (r: Option<Parsed>)
    ensures r.None? <==> text.None? || text.value == ""
    ensures r.Some? ==> r.value == SplitAtMarker(text.value)
    ensures r.Some? ==> !Contains(r.value.question, ExplanationMarker)
  {
    if text.None? || text.value == "" then None
    else Some(SplitAtMarker(text.value))
  }

  lemma WellSpacedSlice(s: string, i: nat, j: nat)
    requires WellSpaced(s) && i <= j <= |s|
    ensures WellSpaced(s[i..j])
  {
    FreeSlice(WsWs, s, i, j);
    assert forall k :: 0 <= k < j - i ==> s[i..j][k] == s[i + k];
  }

  /** A stripped prefix of a well-spaced text is well spaced. */
  lemma StripBeforeWellSpaced(s: string)
    requires WellSpaced(s)
    ensures WellSpaced(Strip(Before(s, ExplanationMarker)))
  {
    var b := Before(s, ExplanationMarker);
    WellSpacedSlice(s, 0, |b|);
    StripPreserves(b);
  }

  lemma PlaceholderWellSpaced()
    ensures WellSpaced(NoExplanation)
  {
    forall i | 0 <= i < |NoExplanation| ensures IsWs(NoExplanation[i]) ==> NoExplanation[i] == ' ' {
    }
  }

  /** Splitting a well-spaced text gives well-spaced, single-line parts. */
  lemma SplitWellSpaced(s: string)
    requires WellSpaced(s)
    ensures WellSpaced(SplitAtMarker(s).question) && WellSpaced(SplitAtMarker(s).explanation)
    ensures '\n' !in SplitAtMarker(s).question && '\n' !in SplitAtMarker(s).explanation
  {
    StripBeforeWellSpaced(s);
    PlaceholderWellSpaced();
    BeforeAfterRoundTrip(s, ExplanationMarker);
    if After(s, ExplanationMarker).Some? {
      var rest := After(s, ExplanationMarker).value;
      var k := |s| - |rest|;
      assert rest == s[k..];
      WellSpacedSlice(s, k, |s|);
      StripBeforeWellSpaced(rest);
    }
    WellSpacedNoNewline(SplitAtMarker(s).question);
    WellSpacedNoNewline(SplitAtMarker(s).explanation);
  }

  /**
   * `parse_question_and_explanation` of study_app_ocr.py: the same split run
   * on the cleaned OCR text, so both parts are single lines with single
   * spaces.
   */
  function ParseQuestionAndExplanationOcr(text: Option<string>): (r: Option<Parsed>)
    ensures r.None? <==> text.None? || text.value == ""
    ensures r.Some? ==> WellSpaced(r.value.question) && WellSpaced(r.value.explanation)
    ensures r.Some? ==> '\n' !in r.value.question && '\n' !in r.value.explanation
  {
    if text.None? || text.value == "" then None
    else
      var cleaned := Normalize.CleanOcrText(text.value);
      SplitWellSpaced(cleaned);
      Some(SplitAtMarker(cleaned))
  }

  /** The OCR parser is the plain parser applied to the cleaned text. */
  lemma OcrParseIsParseOfCleaned(text: string)
    requires text != "" && Normalize.CleanOcrText(text) != ""
    ensures ParseQuestionAndExplanationOcr(Some(text)) ==
            ParseQuestionAndExplanation(Some(Normalize.CleanOcrText(text)))
  {
  }
}
