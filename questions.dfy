/** The saved-question rules of the question controller, over an abstract
    question table. */
module Questions {

  /** A question as the client posts it (the trivia API's shape). */
  datatype ExternalQuestion = ExternalQuestion(
    category: string, questionType: string, difficulty: string,
    question: string, correct_answer: string, incorrect_answers: seq<string>)

  /** A row of the question table (the schema's field names). */
  datatype StoredQuestion = StoredQuestion(
    category: string, question: string, correctAnswer: string,
    incorrectAnswers: seq<string>, difficulty: string, questionType: string)

  type QuestionTable = seq<StoredQuestion>

  /** The `create` data: the answer fields renamed, the rest copied. */
  function ToStored(q: ExternalQuestion): (row: StoredQuestion)
    ensures row.correctAnswer == q.correct_answer && row.incorrectAnswers == q.incorrect_answers
    ensures row.category == q.category && row.question == q.question
    ensures row.difficulty == q.difficulty && row.questionType == q.questionType
  {
    StoredQuestion(q.category, q.question, q.correct_answer, q.incorrect_answers, q.difficulty, q.questionType)
  }

  datatype SaveResult = QuestionExists | Saved(row: StoredQuestion)

  function SaveCode(r: SaveResult): int {
    if r.Saved? then 201 else 409
  }

  /** The table holds a question with this text. */
  predicate HasText(table: QuestionTable, text: string) {
    exists k :: 0 <= k < |table| && table[k].question == text
  }

  /** `saveExternalQuestion`'s decision: 409 when the text is already stored,
      otherwise the mapped row is created (201). */
  function SaveOutcome(table: QuestionTable, q: ExternalQuestion): (r: SaveResult)
    ensures r.QuestionExists? <==> HasText(table, q.question)
    ensures r.Saved? ==> r.row == ToStored(q)
  {
    if HasText(table, q.question) then QuestionExists else Saved(ToStored(q))
  }

  function AfterSave(table: QuestionTable, r: SaveResult): (t: QuestionTable)
    ensures table <= t
    ensures |t| == |table| + 1 <==> r.Saved?
    ensures !r.Saved? ==> t == table
    ensures r.Saved? ==> t[|table|] == r.row
  {
    if r.Saved? then table + [r.row] else table
  }

  /** No two rows share a question text. */
  predicate UniqueTexts(table: QuestionTable) {
    forall i, j :: 0 <= i < j < |table| ==> table[i].question != table[j].question
  }

  /** A saved row carries the posted fields under the schema's names. */
  lemma SavedRowMapsFields(table: QuestionTable, q: ExternalQuestion)
    requires SaveOutcome(table, q).Saved?
    ensures var row := SaveOutcome(table, q).row;
            && row.correctAnswer == q.correct_answer
            && row.incorrectAnswers == q.incorrect_answers
            && row.category == q.category && row.question == q.question
            && row.difficulty == q.difficulty && row.questionType == q.questionType
    ensures |AfterSave(table, SaveOutcome(table, q))| == |table| + 1
  {
  }

  /** Saving keeps at most one row per text. */
  lemma SaveKeepsUniqueTexts(table: QuestionTable, q: ExternalQuestion)
    requires UniqueTexts(table)
    ensures UniqueTexts(AfterSave(table, SaveOutcome(table, q)))
  {
    var r := SaveOutcome(table, q);
    if r.Saved? {
      var t := table + [r.row];
      forall i, j | 0 <= i < j < |t| ensures t[i].question != t[j].question {
        if j == |table| {
          assert t[i] == table[i];
          assert t[j].question == q.question;
        }
      }
    }
  }

  /** Saving the same text twice: 201, then 409 with the table unchanged. */
  lemma SaveTwice(table: QuestionTable, q: ExternalQuestion, again: ExternalQuestion)
    requires !HasText(table, q.question) && again.question == q.question
    ensures SaveCode(SaveOutcome(table, q)) == 201
    ensures var t := AfterSave(table, SaveOutcome(table, q));
            SaveCode(SaveOutcome(t, again)) == 409 && AfterSave(t, SaveOutcome(t, again)) == t
  {
    var t := AfterSave(table, SaveOutcome(table, q));
    assert t[|table|].question == again.question;
  }
}
