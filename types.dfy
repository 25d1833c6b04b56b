/** The records the view works on: one answer option, one question's configuration
    and the answer state of that question. */
module Types {
  import opened Wrappers

  /** An answer option; `value` is what a selection records, `labelText` (the source's `label`) what is shown
      and reported. */
  datatype QuestionOption = QuestionOption(labelText: string, value: string, description: Option<string>)

  /** A question as delivered by the host, with its defaults already applied. */
  datatype QuestionConfig = QuestionConfig(
    question: string,
    header: Option<string>,
    options: seq<QuestionOption>,
    multiSelect: bool,
    allowOther: bool)

  /** The answer state of one question. `selected` is a JavaScript `Set`, kept here as
      the sequence of its members in insertion order, which is the order `forEach`
      visits them in; it never holds a value twice. */
  datatype SelectionState = SelectionState(selected: seq<string>, otherText: string, isOtherSelected: bool)

  predicate NoDuplicates(s: seq<string>) {
    forall i, j :: 0 <= i < j < |s| ==> s[i] != s[j]
  }

  /** Option values are unique within a question; the host's schema does not enforce
      it, so the lemmas that need it say so. */
  predicate DistinctValues(options: seq<QuestionOption>) {
    forall i, j :: 0 <= i < j < |options| ==> options[i].value != options[j].value
  }

  /** Question texts double as tab keys; they are unique within a question set. */
  predicate DistinctQuestions(questions: seq<QuestionConfig>) {
    forall i, j :: 0 <= i < j < |questions| ==> questions[i].question != questions[j].question
  }
}
