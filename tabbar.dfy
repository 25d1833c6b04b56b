/** The tab strip of the multi-question view: a progress count, one pill per question and
    a final submit pill. The active tab and the set of answered questions belong to the
    multi-question root, which is not part of this model; they arrive as parameters. */
module TabBar {
  import opened Wrappers
  import opened Types

  /** The tab key of the review-and-submit step. */
  const SubmitTab: string := "submit"

  /** `questions.findIndex(q => q.question === activeTab)`. */
  function CurrentIndex(questions: seq<QuestionConfig>, activeTab: string): (r: int)
    ensures -1 <= r < |questions|
    ensures r == -1 <==> forall i :: 0 <= i < |questions| ==> questions[i].question != activeTab
    ensures 0 <= r ==>
      (questions[r].question == activeTab && forall j :: 0 <= j < r ==> questions[j].question != activeTab)
  {
    if questions == [] then -1
    else if questions[0].question == activeTab then 0
    else
      var r := CurrentIndex(questions[1..], activeTab);
      if r == -1 then -1 else r + 1
  }

  /** One question pill: what it shows and the tab it switches to when clicked. */
  datatype QuestionPill = QuestionPill(
    header: Option<string>,
    isActive: bool,
    isAnswered: bool,
    isPast: bool,
    showCheck: bool,
    target: string)

  datatype TabBarView = TabBarView(
    progress: nat,
    total: nat,
    pills: seq<QuestionPill>,
    submitActive: bool,
    submitTarget: string)

  /** The pill of question `index`: a check mark only on an answered pill that is not
      the active one, and past exactly when it comes before the current question or the
      submit step is shown. */
  function Pill(questions: seq<QuestionConfig>, activeTab: string, answered: set<string>, index: nat): (p: QuestionPill)
    requires index < |questions|
    ensures p.target == questions[index].question && p.header == questions[index].header
    ensures p.isActive <==> questions[index].question == activeTab
    ensures p.isAnswered <==> questions[index].question in answered
    ensures p.showCheck <==> p.isAnswered && !p.isActive
    ensures p.isPast <==> index < CurrentIndex(questions, activeTab) || activeTab == SubmitTab
  {
    var q := questions[index];
    var isActive := activeTab == q.question;
    var isAnswered := q.question in answered;
    var isPast := index < CurrentIndex(questions, activeTab) || (activeTab == SubmitTab && index < |questions|);
    QuestionPill(q.header, isActive, isAnswered, isPast, isAnswered && !isActive, q.question)
  }

  /** The tab strip for `questions` with `activeTab` shown and `answered` checked off. */
  function Render(questions: seq<QuestionConfig>, activeTab: string, answered: set<string>): (v: TabBarView)
    ensures v.progress == |answered| && v.total == |questions| && |v.pills| == |questions|
    ensures forall i :: 0 <= i < |questions| ==>
      && (v.pills[i].isActive <==> questions[i].question == activeTab)
      && (v.pills[i].isAnswered <==> questions[i].question in answered)
      && (v.pills[i].isPast <==> i < CurrentIndex(questions, activeTab) || activeTab == SubmitTab)
      && (v.pills[i].showCheck <==> questions[i].question in answered && questions[i].question != activeTab)
      && v.pills[i].target == questions[i].question
      && v.pills[i].header == questions[i].header
    ensures (v.submitActive <==> activeTab == SubmitTab) && v.submitTarget == SubmitTab
  {
    var pills := seq(|questions|, i requires 0 <= i < |questions| => Pill(questions, activeTab, answered, i));
    TabBarView(|answered|, |questions|, pills, activeTab == SubmitTab, SubmitTab)
  }

  /** On the submit step (and no question is literally titled "submit") there is no
      current question, no question pill is active and every question pill is past. */
  lemma OnSubmitStep(questions: seq<QuestionConfig>, answered: set<string>)
    requires forall i :: 0 <= i < |questions| ==> questions[i].question != SubmitTab
    ensures CurrentIndex(questions, SubmitTab) == -1
    ensures var v := Render(questions, SubmitTab, answered);
      v.submitActive && forall i :: 0 <= i < |questions| ==>
        !v.pills[i].isActive && v.pills[i].isPast && (v.pills[i].showCheck <==> v.pills[i].isAnswered)
  {
  }

  /** With distinct question texts, on question `k` the current index is `k`, pill `k`
      is the only active pill, exactly the pills before it are past, and the submit pill
      is not active. */
  lemma OnQuestion(questions: seq<QuestionConfig>, answered: set<string>, k: nat)
    requires DistinctQuestions(questions)
    requires k < |questions| && questions[k].question != SubmitTab
    ensures CurrentIndex(questions, questions[k].question) == k
    ensures var v := Render(questions, questions[k].question, answered);
      !v.submitActive && forall i :: 0 <= i < |questions| ==>
        (v.pills[i].isActive <==> i == k) && (v.pills[i].isPast <==> i < k)
  {
  }

  /** An active pill is never past, and never shows the answered checkmark. */
  lemma ActiveIsNotPast(questions: seq<QuestionConfig>, activeTab: string, answered: set<string>, i: nat)
    requires i < |questions| && activeTab != SubmitTab
    requires Render(questions, activeTab, answered).pills[i].isActive
    ensures !Render(questions, activeTab, answered).pills[i].isPast
    ensures !Render(questions, activeTab, answered).pills[i].showCheck
  {
  }
}
