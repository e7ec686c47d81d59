/**
 * `get_cached_question_data` of study_app_ocr.py: the per-question cache of the
 * OCR viewer. A cached question is returned as it is; otherwise the page text
 * is parsed, its choices and stem extracted, and its correct answer taken from
 * the answers file or, failing that, inferred from the explanation and stored.
 * The OCR itself is left out: its result is the `ocrText` parameter.
 */
module Session {
  import opened Text
  import opened Store
  import Splitter
  import LineScan
  import Stem
  import Inference

  datatype CachedQuestion = CachedQuestion(
    rawText: string,
    parsed: Option<Splitter.Parsed>,
    choices: map<char, string>,
    finalQuestion: string,
    correctAnswer: Option<string>)

  /** The explanation part of a parse, `None` when the text was empty. */
  function ExplanationOf(parsed: Option<Splitter.Parsed>): Option<string> {
    if parsed.Some? then Some(parsed.value.explanation) else None
  }

  /** `find_correct_answer` with its letter as a string. */
  function Inferred(explanation: Option<string>): (r: Option<string>)
    ensures r.Some? ==> |r.value| == 1 && IsChoiceLetter(r.value[0])
  {
    match Inference.CorrectAnswer(explanation)
    case None => None
    case Some(c) =>
      assert c in Inference.Uncited(explanation.value);
      Some([c])
  }

  /** A stored answer takes precedence over the inferred one. */
  function ResolveCorrectAnswer(stored: Option<string>, explanation: Option<string>): (r: Option<string>)
    ensures Truthy(stored) ==> r == stored
    ensures !Truthy(stored) ==> r == Inferred(explanation)
    ensures r.Some? ==> r == stored || (|r.value| == 1 && IsChoiceLetter(r.value[0]))
  {
    if Truthy(stored) then stored else Inferred(explanation)
  }

  /** Whether resolving the answer writes it to the answers file. */
  predicate StoresInferred(stored: Option<string>, explanation: Option<string>) {
    !Truthy(stored) && Inferred(explanation).Some?
  }

  /** The stored answer is never replaced by an inferred one. */
  lemma StoredAnswerIsKept(stored: Option<string>, explanation: Option<string>)
    requires Truthy(stored)
    ensures ResolveCorrectAnswer(stored, explanation) == stored
    ensures !StoresInferred(stored, explanation)
  {
  }

  /** What the cache holds for a question whose page reads `raw`. */
  function Entry(raw: string, stored: Option<string>): (e: CachedQuestion)
    ensures e.rawText == raw
    ensures LineScan.WellFormedChoices(e.choices)
    ensures Trimmed(e.finalQuestion) && WellSpaced(e.finalQuestion)
  {
    var parsed := Splitter.ParseQuestionAndExplanationOcr(Some(raw));
    CachedQuestion(raw, parsed, LineScan.RawTextChoices(Some(raw)), Stem.FinalQuestion(raw),
                   ResolveCorrectAnswer(stored, ExplanationOf(parsed)))
  }

  class QuestionCache {
    /** `question_data_cache`, keyed by question number. */
    var entries: map<nat, CachedQuestion>

    constructor()
      ensures entries == map[]
    {
      entries := map[];
    }

    /**
     * `get_cached_question_data`. A cached question comes back unchanged and
     * nothing is written. A page without text gives nothing and changes
     * nothing. Otherwise the new entry is cached and returned, and the answers
     * file changes only when no answer was stored and one was inferred.
     */
    method GetCachedQuestionData(store: AnswerStore, n: nat, ocrText: Option<string>)
      returns (r: Option<CachedQuestion>)
      modifies this, store
      ensures n in old(entries) ==>
        r == Some(old(entries)[n]) && entries == old(entries) && store.data == old(store.data)
      ensures n !in old(entries) && ocrText.None? ==>
        r.None? && entries == old(entries) && store.data == old(store.data)
      ensures n !in old(entries) && ocrText.Some? ==>
        var e := Entry(ocrText.value, old(store.StoredCorrectAnswer(n)));
        r == Some(e) && entries == old(entries)[n := e] &&
        store.data == if StoresInferred(old(store.StoredCorrectAnswer(n)), ExplanationOf(e.parsed))
                      then old(store.data)[n := (if n in old(store.data) then old(store.data)[n] else Blank).(correct := e.correctAnswer)]
                      else old(store.data)
    {
      if n in entries {
        return Some(entries[n]);
      }
      if ocrText.None? {
        return None;
      }
      var raw := ocrText.value;
      var parsed := Splitter.ParseQuestionAndExplanationOcr(Some(raw));
      var choices := LineScan.ExtractChoicesFromRawText(Some(raw));
      var questionOnly := Strip(Before(raw, Splitter.ExplanationMarker));
      var questionLines := Stem.CollectStemLines(Split(questionOnly, '\n'));
      var finalQuestion := Stem.JoinStem(questionLines);
      var stored := store.StoredCorrectAnswer(n);
      var correctAnswer: Option<string>;
      if Truthy(stored) {
        correctAnswer := stored;
      } else {
        var letter := Inference.FindCorrectAnswer(ExplanationOf(parsed));
        correctAnswer := if letter.Some? then Some([letter.value]) else None;
        if Truthy(correctAnswer) {
          store.StoreCorrectAnswer(n, correctAnswer);
        }
      }
      var e := CachedQuestion(raw, parsed, choices, finalQuestion, correctAnswer);
      entries := entries[n := e];
      r := Some(e);
    }
  }
}
