/**
 * The answer records of study_app_ocr.py. The shared answers file maps
 * `Question_n` to a record holding the correct answer (`Correct_result`) and
 * the recorded choice (`Users_choice`); every user has a file of the same
 * shape. Records are keyed by the question number here; a missing field and a
 * JSON `null` are both `None`. Loading and saving the JSON files is left out:
 * the in-memory map stands for the file.
 */
module Store {
  import opened Text

  datatype Record = Record(correct: Option<string>, choice: Option<string>)

  /** The record `{}` the source creates for a question it has not seen. */
  const Blank := Record(None, None)

  /** Python truthiness of an optional string: present and not empty. */
  predicate Truthy(v: Option<string>) {
    v.Some? && v.value != ""
  }

  datatype Status = Correct | Wrong | NeedsAnswer

  /**
   * `get_question_status`: an answer is needed until both the correct answer
   * and the choice are known; then the question is correct exactly when they
   * agree.
   */
  function Classify(correct: Option<string>, choice: Option<string>): (s: Status)
    ensures s == NeedsAnswer <==> !Truthy(correct) || !Truthy(choice)
    ensures s == Correct <==> Truthy(correct) && Truthy(choice) && correct == choice
    ensures s == Wrong <==> Truthy(correct) && Truthy(choice) && correct != choice
  {
    if !Truthy(correct) then NeedsAnswer
    else if !Truthy(choice) then NeedsAnswer
    else if correct == choice then Correct
    else Wrong
  }

  /**
   * `get_question_status_for_user`: an answer is needed until a choice is
   * recorded; then the question is correct exactly when the recorded correct
   * answer equals the choice, so a choice without a correct answer is wrong.
   */
  function ClassifyForUser(rec: Option<Record>): (s: Status)
    ensures s == NeedsAnswer <==> rec.None? || !Truthy(rec.value.choice)
    ensures s == Correct <==> rec.Some? && Truthy(rec.value.choice) && rec.value.choice == rec.value.correct
    ensures s == Wrong ==> rec.Some? && rec.value.choice != rec.value.correct
  {
    if rec.None? then NeedsAnswer
    else if !Truthy(rec.value.choice) then NeedsAnswer
    else if rec.value.choice == rec.value.correct then Correct
    else Wrong
  }

  /** The two classifications agree once both fields are set. */
  lemma ClassificationsAgree(rec: Record)
    requires Truthy(rec.correct) && Truthy(rec.choice)
    ensures ClassifyForUser(Some(rec)) == Classify(rec.correct, rec.choice)
  {
  }

  /**
   * They disagree on a question that has a choice but no correct answer: the
   * answers file calls it unanswered, the user view calls it wrong.
   */
  lemma ClassificationsDisagreeWithoutAnswer(rec: Record)
    requires Truthy(rec.choice) && rec.correct.None?
    ensures Classify(rec.correct, rec.choice) == NeedsAnswer
    ensures ClassifyForUser(Some(rec)) == Wrong
  {
  }

  /** The shared answers file, `answers_data`. */
  class AnswerStore {
    var data: map<nat, Record>

    constructor()
      ensures data == map[]
    {
      data := map[];
    }

    /** `get_stored_correct_answer`. */
    function StoredCorrectAnswer(n: nat): Option<string>
      reads this
    {
      if n in data then data[n].correct else None
    }

    /** `get_user_choice`. */
    function UserChoice(n: nat): Option<string>
      reads this
    {
      if n in data then data[n].choice else None
    }

    /** `get_question_status`. */
    function QuestionStatus(n: nat): Status
      reads this
    {
      Classify(StoredCorrectAnswer(n), UserChoice(n))
    }

    /**
     * `store_correct_answer`: creates the record if absent and sets its correct
     * answer; the choice and every other question are unchanged.
     */
    method StoreCorrectAnswer(n: nat, answer: Option<string>)
      modifies this
      ensures data == old(data)[n := (if n in old(data) then old(data)[n] else Blank).(correct := answer)]
      ensures StoredCorrectAnswer(n) == answer && UserChoice(n) == old(UserChoice(n))
      ensures forall m :: m != n ==> StoredCorrectAnswer(m) == old(StoredCorrectAnswer(m)) &&
                                      UserChoice(m) == old(UserChoice(m))
      ensures QuestionStatus(n) == Classify(answer, old(UserChoice(n)))
    {
      var rec := if n in data then data[n] else Blank;
      data := data[n := rec.(correct := answer)];
    }

    /**
     * `store_user_choice`: creates the record if absent and sets its choice;
     * the correct answer and every other question are unchanged.
     */
    method StoreUserChoice(n: nat, choice: Option<string>)
      modifies this
      ensures data == old(data)[n := (if n in old(data) then old(data)[n] else Blank).(choice := choice)]
      ensures UserChoice(n) == choice && StoredCorrectAnswer(n) == old(StoredCorrectAnswer(n))
      ensures forall m :: m != n ==> StoredCorrectAnswer(m) == old(StoredCorrectAnswer(m)) &&
                                      UserChoice(m) == old(UserChoice(m))
      ensures QuestionStatus(n) == Classify(old(StoredCorrectAnswer(n)), choice)
    {
      var rec := if n in data then data[n] else Blank;
      data := data[n := rec.(choice := choice)];
    }
  }

  /** One user's progress file and its contents. */
  class UserProgress {
    /** `st.session_state.user_answers_file`; empty when nobody is logged in. */
    var answersFile: string
    var answers: map<nat, Record>

    constructor(file: string)
      ensures answersFile == file && answers == map[]
    {
      answersFile := file;
      answers := map[];
    }

    /**
     * `update_user_answer`: without a progress file nothing happens; otherwise
     * the choice is always recorded and the correct answer only when a truthy
     * one is given.
     */
    method UpdateUserAnswer(n: nat, choice: Option<string>, correct: Option<string>)
      modifies this
      ensures answersFile == old(answersFile)
      ensures old(answersFile) == "" ==> answers == old(answers)
      ensures old(answersFile) != "" ==>
        var rec := if n in old(answers) then old(answers)[n] else Blank;
        answers == old(answers)[n := Record(if Truthy(correct) then correct else rec.correct, choice)]
    {
      if answersFile == "" {
        return;
      }
      var rec := if n in answers then answers[n] else Blank;
      rec := rec.(choice := choice);
      if Truthy(correct) {
        rec := rec.(correct := correct);
      }
      answers := answers[n := rec];
    }
  }

  /** The status of question `i` in a user's answers. */
  function StatusOf(answers: map<nat, Record>, i: nat): Status {
    ClassifyForUser(if i in answers then Some(answers[i]) else None)
  }

  /** How many of the questions `1 .. total` have status `s`. */
  function CountStatus(answers: map<nat, Record>, total: nat, s: Status): (c: nat)
    ensures c <= total
  {
    if total == 0 then 0
    else CountStatus(answers, total - 1, s) + (if StatusOf(answers, total) == s then 1 else 0)
  }

  /** Every question is counted exactly once: the three tallies sum to the total. */
  lemma {:induction false} TalliesSumToTotal(answers: map<nat, Record>, total: nat)
    ensures CountStatus(answers, total, Correct) + CountStatus(answers, total, Wrong) +
            CountStatus(answers, total, NeedsAnswer) == total
  {
    if total > 0 {
      TalliesSumToTotal(answers, total - 1);
    }
  }

  /** The sidebar tally: one status per question, counted into three bins. */
  method Tally(answers: map<nat, Record>, total: nat) returns (correct: nat, wrong: nat, needsAnswer: nat)
    ensures correct == CountStatus(answers, total, Correct)
    ensures wrong == CountStatus(answers, total, Wrong)
    ensures needsAnswer == CountStatus(answers, total, NeedsAnswer)
    ensures correct + wrong + needsAnswer == total
  {
    correct, wrong, needsAnswer := 0, 0, 0;
    for i := 0 to total
      invariant correct == CountStatus(answers, i, Correct)
      invariant wrong == CountStatus(answers, i, Wrong)
      invariant needsAnswer == CountStatus(answers, i, NeedsAnswer)
    {
      var status := StatusOf(answers, i + 1);
      if status == Correct {
        correct := correct + 1;
      } else if status == Wrong {
        wrong := wrong + 1;
      } else {
        needsAnswer := needsAnswer + 1;
      }
    }
    TalliesSumToTotal(answers, total);
  }

  // ------------------------------------------------------------ file names

  /** The characters `[\w\-_\.]` keeps (ASCII `\w`). */
  predicate AllowedInFileName(c: char) {
    IsWordChar(c) || c == '-' || c == '.'
  }

  /** `re.sub(r'[^\w\-_\.]', '_', name)`: every other character becomes `_`. */
  function Sanitize(name: string): (r: string)
    ensures |r| == |name|
    ensures forall i :: 0 <= i < |r| ==> AllowedInFileName(r[i])
    ensures forall i :: 0 <= i < |name| ==> (r[i] == name[i] <==> AllowedInFileName(name[i]))
    ensures forall i :: 0 <= i < |name| && !AllowedInFileName(name[i]) ==> r[i] == '_'
  {
    seq(|name|, i requires 0 <= i < |name| => if AllowedInFileName(name[i]) then name[i] else '_')
  }

  const FilePrefix: string := "user_answers_"
  const FileSuffix: string := ".json"

  /** `get_user_answers_file`: no file for an empty name. */
  function UserAnswersFile(username: string): (r: Option<string>)
    ensures username == "" <==> r.None?
  {
    if username == "" then None else Some(FilePrefix + Sanitize(username) + FileSuffix)
  }

  /**
   * The file name is the prefix, the name with each disallowed character
   * replaced by `_` and nothing else changed, and the suffix; sanitising twice
   * changes nothing more.
   */
  lemma UserAnswersFileShape(username: string)
    requires username != ""
    ensures var f := UserAnswersFile(username).value;
      |f| == |FilePrefix| + |username| + |FileSuffix| &&
      f[..|FilePrefix|] == FilePrefix && f[|f| - |FileSuffix|..] == FileSuffix &&
      f[|FilePrefix|..|f| - |FileSuffix|] == Sanitize(username)
    ensures forall i :: 0 <= i < |username| ==> AllowedInFileName(Sanitize(username)[i])
    ensures forall i :: 0 <= i < |username| && AllowedInFileName(username[i]) ==> Sanitize(username)[i] == username[i]
    ensures Sanitize(Sanitize(username)) == Sanitize(username)
  {
    var f := UserAnswersFile(username).value;
    assert f == FilePrefix + Sanitize(username) + FileSuffix;
    assert f[|FilePrefix|..|f| - |FileSuffix|] == Sanitize(username);
  }
}
