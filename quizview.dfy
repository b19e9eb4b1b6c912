/** The quiz session manager: topic selection over the bank, answer recording,
    the question cursor and the Next/Submit enabling rules. */
module QuizView {
  import opened Types
  import Constants
  import MockApi

  /** A topic button: the comprehensive quiz or one topic. */
  datatype TopicChoice = All | OneTopic(topic: QuizTopic)

  /** The bank questions about topic `t`, in bank order. */
  function TopicFilter(bank: seq<QuizQuestion>, t: QuizTopic): (r: seq<QuizQuestion>)
    ensures |r| <= |bank|
    ensures forall q :: q in r <==> q in bank && q.topic == t
  {
    if bank == [] then []
    else
      var last := bank[|bank| - 1];
      TopicFilter(bank[..|bank| - 1], t) + (if last.topic == t then [last] else [])
  }

  /** The questions a topic button loads: the whole bank for 'All'. */
  function QuestionsFor(bank: seq<QuizQuestion>, choice: TopicChoice): (r: seq<QuizQuestion>)
    ensures choice == All ==> r == bank
    ensures choice.OneTopic? ==> forall q :: q in r <==> q in bank && q.topic == choice.topic
  {
    match choice
    case All => bank
    case OneTopic(t) => TopicFilter(bank, t)
  }

  /** Filtering distributes over concatenation, so it keeps bank order. */
  lemma {:induction false} TopicFilterAppend(a: seq<QuizQuestion>, b: seq<QuizQuestion>, t: QuizTopic)
    ensures TopicFilter(a + b, t) == TopicFilter(a, t) + TopicFilter(b, t)
  {
    if b != [] {
      var init := b[..|b| - 1];
      var last := b[|b| - 1];
      assert (a + b)[..|a + b| - 1] == a + init;
      assert (a + b)[|a + b| - 1] == last;
      TopicFilterAppend(a, init, t);
      assert TopicFilter(a + b, t) == TopicFilter(a + init, t) + (if last.topic == t then [last] else []);
      assert TopicFilter(b, t) == TopicFilter(init, t) + (if last.topic == t then [last] else []);
    } else {
      assert a + b == a;
    }
  }

  /** Sum of the five per-topic filter lengths. */
  function TopicCountSum(bank: seq<QuizQuestion>): nat
  {
    |TopicFilter(bank, WeldingSymbols)| + |TopicFilter(bank, VisualInspection)| +
    |TopicFilter(bank, CodeNavigation)| + |TopicFilter(bank, WPS)| + |TopicFilter(bank, Safety)|
  }

  /** Every question has exactly one topic, so the per-topic counts add up to the bank size. */
  lemma {:induction false} TopicCountsPartitionBank(bank: seq<QuizQuestion>)
    ensures TopicCountSum(bank) == |bank|
  {
    if bank != [] {
      TopicCountsPartitionBank(bank[..|bank| - 1]);
    }
  }

  /** A filter of a bank with unique ids has unique ids. */
  lemma {:induction false} TopicFilterUniqueIds(bank: seq<QuizQuestion>, t: QuizTopic)
    requires Constants.UniqueQuestionIds(bank)
    ensures Constants.UniqueQuestionIds(TopicFilter(bank, t))
  {
    if bank != [] {
      var init := bank[..|bank| - 1];
      assert Constants.UniqueQuestionIds(init);
      TopicFilterUniqueIds(init, t);
      var r := TopicFilter(bank, t);
      var ri := TopicFilter(init, t);
      var last := bank[|bank| - 1];
      if last.topic == t {
        forall i | 0 <= i < |ri| ensures ri[i].id != last.id {
          assert ri[i] in init;
          var k :| 0 <= k < |init| && init[k] == ri[i];
          assert bank[k] == ri[i];
        }
      }
    }
  }

  // ---------------------------------------------------------------------
  // The topic cards (`topicDetails`)

  datatype TopicDetail = TopicDetail(name: string, questionCount: nat)

  function CardName(choice: TopicChoice): string
  {
    match choice
    case All => "Comprehensive Quiz"
    case OneTopic(WeldingSymbols) => TopicName(WeldingSymbols)
    case OneTopic(VisualInspection) => "Visual Inspection"
    case OneTopic(CodeNavigation) => "Code Navigation"
    case OneTopic(WPS) => "WPS/PQR"
    case OneTopic(Safety) => "Job Site Safety"
  }

  /** The six cards carry six different names. */
  lemma CardNamesDistinct(a: TopicChoice, b: TopicChoice)
    ensures CardName(a) == CardName(b) ==> a == b
  {
    if a != b {
      assert CardName(a)[0] != CardName(b)[0] || |CardName(a)| != |CardName(b)|;
    }
  }

  /** The card shown for a topic button, with the number of questions it loads. */
  function Detail(choice: TopicChoice): (d: TopicDetail)
    ensures d.questionCount == |QuestionsFor(Constants.QuizQuestions, choice)|
    ensures choice == All ==> d.questionCount == |Constants.QuizQuestions|
  {
    TopicDetail(CardName(choice), |QuestionsFor(Constants.QuizQuestions, choice)|)
  }

  /** The per-topic counts add up to the 'All' count; on the shipped bank each topic has one question. */
  lemma DetailCounts()
    ensures Detail(All).questionCount == 5
    ensures Detail(OneTopic(WeldingSymbols)).questionCount + Detail(OneTopic(VisualInspection)).questionCount +
            Detail(OneTopic(CodeNavigation)).questionCount + Detail(OneTopic(WPS)).questionCount +
            Detail(OneTopic(Safety)).questionCount == Detail(All).questionCount
    ensures forall t :: Detail(OneTopic(t)).questionCount == 1
  {
    TopicCountsPartitionBank(Constants.QuizQuestions);
    forall t ensures |TopicFilter(Constants.QuizQuestions, t)| == 1 {
      ShippedTopicFilter(t);
    }
  }

  /** No question is about `t`: the filter is empty. */
  lemma {:induction false} TopicFilterNone(bank: seq<QuizQuestion>, t: QuizTopic)
    requires forall j :: 0 <= j < |bank| ==> bank[j].topic != t
    ensures TopicFilter(bank, t) == []
  {
    if bank != [] {
      TopicFilterNone(bank[..|bank| - 1], t);
    }
  }

  /** Exactly one question, number `i`, is about `t`: the filter is that question alone. */
  lemma {:induction false} TopicFilterSingle(bank: seq<QuizQuestion>, t: QuizTopic, i: int)
    requires 0 <= i < |bank| && bank[i].topic == t
    requires forall j :: 0 <= j < |bank| && j != i ==> bank[j].topic != t
    ensures TopicFilter(bank, t) == [bank[i]]
  {
    var init := bank[..|bank| - 1];
    if i == |bank| - 1 {
      TopicFilterNone(init, t);
    } else {
      TopicFilterSingle(init, t, i);
    }
  }

  /** On the shipped bank, a topic loads exactly the one question about it. */
  lemma ShippedTopicFilter(t: QuizTopic)
    ensures TopicFilter(Constants.QuizQuestions, t) == [Constants.QuizQuestions[TopicIndex(t)]]
  {
    Constants.QuizQuestionsOnePerTopic();
    TopicFilterSingle(Constants.QuizQuestions, t, TopicIndex(t));
  }

  /** Position of a topic's question in the shipped bank. */
  function TopicIndex(t: QuizTopic): (i: nat)
    ensures i < |Constants.QuizQuestions| && Constants.QuizQuestions[i].topic == t
  {
    match t
    case WeldingSymbols => 0
    case VisualInspection => 1
    case CodeNavigation => 2
    case WPS => 3
    case Safety => 4
  }

  /** Choosing Safety loads just the fifth question. */
  lemma ScenarioSafetyTopic()
    ensures QuestionsFor(Constants.QuizQuestions, OneTopic(Safety)) == [Constants.QuizQuestions[4]]
    ensures Constants.QuizQuestions[4].id == "q5"
  {
    ShippedTopicFilter(Safety);
  }

  // ---------------------------------------------------------------------
  // Answers and the hand-off to the scorer

  /** `v` is the id of one of `q`'s options. */
  predicate OptionOf(q: QuizQuestion, v: string)
  {
    exists l :: 0 <= l < |q.options| && q.options[l].id == v
  }

  /** Key `k` is the id of a question of `qs` and `v` one of its options. */
  predicate AnswerFits(qs: seq<QuizQuestion>, k: string, v: string)
  {
    exists i :: 0 <= i < |qs| && qs[i].id == k && OptionOf(qs[i], v)
  }

  /** Every answer is an option of a question in `qs`. */
  predicate AnswersWithin(qs: seq<QuizQuestion>, answers: QuizAnswers)
  {
    forall k :: k in answers ==> AnswerFits(qs, k, answers[k])
  }

  /** Choosing option `l` of question `i` keeps every answer an option of a question of `qs`. */
  lemma AnswerOfQuestionFits(qs: seq<QuizQuestion>, answers: QuizAnswers, i: int, l: int)
    requires AnswersWithin(qs, answers)
    requires 0 <= i < |qs| && 0 <= l < |qs[i].options|
    ensures AnswersWithin(qs, answers[qs[i].id := qs[i].options[l].id])
  {
    var q := qs[i];
    var updated := answers[q.id := q.options[l].id];
    assert OptionOf(q, q.options[l].id);
    assert AnswerFits(qs, q.id, q.options[l].id);
    forall k | k in updated ensures AnswerFits(qs, k, updated[k]) {
      if k != q.id {
        assert updated[k] == answers[k];
      }
    }
  }

  /** The set of ids of `qs`. */
  function Ids(qs: seq<QuizQuestion>): (s: set<string>)
    ensures forall k :: k in s <==> exists i :: 0 <= i < |qs| && qs[i].id == k
  {
    if qs == [] then {} else Ids(qs[..|qs| - 1]) + {qs[|qs| - 1].id}
  }

  lemma {:induction false} IdsCardinality(qs: seq<QuizQuestion>)
    requires Constants.UniqueQuestionIds(qs)
    ensures |Ids(qs)| == |qs|
  {
    if qs != [] {
      var init := qs[..|qs| - 1];
      assert Constants.UniqueQuestionIds(init);
      IdsCardinality(init);
      assert qs[|qs| - 1].id !in Ids(init);
    }
  }

  /** With unique ids and answers only for questions of `qs`, "at least |qs|
      answer keys" (the Submit test) means "every question answered". */
  lemma SubmitCountMeansAllAnswered(qs: seq<QuizQuestion>, answers: QuizAnswers)
    requires Constants.UniqueQuestionIds(qs)
    requires AnswersWithin(qs, answers)
    ensures |answers.Keys| >= |qs| <==> forall i :: 0 <= i < |qs| ==> qs[i].id in answers
  {
    var ids := Ids(qs);
    IdsCardinality(qs);
    KeysWithinIds(qs, answers);
    if |answers.Keys| >= |qs| {
      SubsetOfNoSmallerSize(answers.Keys, ids);
      forall i | 0 <= i < |qs| ensures qs[i].id in answers {
        assert qs[i].id in ids;
      }
    }
    if forall i :: 0 <= i < |qs| ==> qs[i].id in answers {
      forall k | k in ids ensures k in answers.Keys {
        var i :| 0 <= i < |qs| && qs[i].id == k;
      }
      assert answers.Keys == ids;
    }
  }

  lemma KeysWithinIds(qs: seq<QuizQuestion>, answers: QuizAnswers)
    requires AnswersWithin(qs, answers)
    ensures answers.Keys <= Ids(qs)
  {
    forall k | k in answers.Keys ensures k in Ids(qs) {
      assert AnswerFits(qs, k, answers[k]);
    }
  }

  lemma SubsetOfNoSmallerSize<T>(a: set<T>, b: set<T>)
    requires a <= b && |a| >= |b|
    ensures a == b
  {
    assert b == a + (b - a);
    assert a * (b - a) == {};
    assert |b| == |a| + |b - a|;
    assert b - a == {};
  }

  /** When answer keys pick out exactly the questions of topic `t` within the
      bank, the scorer scores exactly that topic's questions. */
  lemma {:induction false} ScoredSetIsTopicFilter(bank: seq<QuizQuestion>, answers: QuizAnswers, t: QuizTopic)
    requires forall i :: 0 <= i < |bank| ==> (bank[i].id in answers <==> bank[i].topic == t)
    ensures MockApi.ScoredSet(bank, answers) == TopicFilter(bank, t)
  {
    if bank != [] {
      ScoredSetIsTopicFilter(bank[..|bank| - 1], answers, t);
    }
  }

  /** A completed session hands the scorer exactly the questions it showed:
      the scored set is the selected topic's question list. */
  lemma SubmittedQuizIsScoredSet(bank: seq<QuizQuestion>, choice: TopicChoice, answers: QuizAnswers)
    requires Constants.UniqueQuestionIds(bank)
    requires AnswersWithin(QuestionsFor(bank, choice), answers)
    requires forall q :: q in QuestionsFor(bank, choice) ==> q.id in answers
    ensures MockApi.ScoredSet(bank, answers) == QuestionsFor(bank, choice)
  {
    var qs := QuestionsFor(bank, choice);
    match choice
    case All =>
      MockApi.ScoredSetAllAnswered(bank, answers);
    case OneTopic(t) =>
      forall i | 0 <= i < |bank| ensures bank[i].id in answers <==> bank[i].topic == t {
        if bank[i].id in answers {
          assert AnswerFits(qs, bank[i].id, answers[bank[i].id]);
          var j :| 0 <= j < |qs| && qs[j].id == bank[i].id && OptionOf(qs[j], answers[bank[i].id]);
          assert qs[j] in bank;
          var k :| 0 <= k < |bank| && bank[k] == qs[j];
          assert k == i;
        }
        if bank[i].topic == t {
          assert bank[i] in qs;
        }
      }
      ScoredSetIsTopicFilter(bank, answers, t);
  }

  // ---------------------------------------------------------------------
  // The session state

  class QuizSession {
    var selectedTopic: Option<TopicChoice>
    var questions: seq<QuizQuestion>
    var answers: QuizAnswers
    var currentQuestionIndex: int

    /** The loaded questions are those of the selected topic, and the cursor is in range. */
    ghost predicate Valid()
      reads this
    {
      && 0 <= currentQuestionIndex
      && (questions == [] || currentQuestionIndex < |questions|)
      && (selectedTopic.None? ==> questions == [])
      && (selectedTopic.Some? ==> questions == QuestionsFor(Constants.QuizQuestions, selectedTopic.value))
    }

    /** Every recorded answer is an option of a question on screen. */
    ghost predicate AnswersOnScreen()
      reads this
    {
      AnswersWithin(questions, answers)
    }

    constructor ()
      ensures Valid() && AnswersOnScreen()
      ensures selectedTopic == None && questions == [] && answers == map[] && currentQuestionIndex == 0
    {
      selectedTopic := None;
      questions := [];
      answers := map[];
      currentQuestionIndex := 0;
    }

    /** The question on screen, if any. */
    function CurrentQuestion(): (q: Option<QuizQuestion>)
      reads this
      requires Valid()
      ensures q.Some? <==> selectedTopic.Some? && questions != []
      ensures q.Some? ==> q.value == questions[currentQuestionIndex]
      ensures q.Some? ==> q.value in Constants.QuizQuestions
      ensures q.Some? && selectedTopic.value.OneTopic? ==> q.value.topic == selectedTopic.value.topic
    {
      if selectedTopic.Some? && questions != [] then Some(questions[currentQuestionIndex]) else None
    }

    /** The "No Questions Available" state: a topic was chosen and it has no questions. */
    predicate ShowsNoQuestions()
      reads this
      ensures Valid() ==> !ShowsNoQuestions()
    {
      if selectedTopic.Some? && selectedTopic.value.OneTopic? then
        ShippedTopicFilter(selectedTopic.value.topic);
        questions == []
      else
        selectedTopic.Some? && questions == []
    }

    /** The Next button is shown (rather than Submit) when the cursor is not on the last question. */
    predicate NextShown()
      reads this
      ensures Valid() && NextShown() ==> |questions| >= 2 && currentQuestionIndex + 1 < |questions|
    {
      selectedTopic.Some? && questions != [] && currentQuestionIndex < |questions| - 1
    }

    /** Next is enabled once the question on screen has a (non-empty) answer. */
    function NextEnabled(): (b: bool)
      reads this
      requires Valid()
      ensures b ==> NextShown() && CurrentQuestion().value.id in answers
    {
      NextShown() && questions[currentQuestionIndex].id in answers && answers[questions[currentQuestionIndex].id] != ""
    }

    /** Submit is shown on the last question. */
    predicate SubmitShown()
      reads this
      ensures SubmitShown() <==> selectedTopic.Some? && !ShowsNoQuestions() && !NextShown()
      ensures Valid() && SubmitShown() ==> currentQuestionIndex == |questions| - 1
    {
      selectedTopic.Some? && questions != [] && !(currentQuestionIndex < |questions| - 1)
    }

    /** Submit is enabled once there are at least as many answer keys as questions. */
    function SubmitEnabled(): (b: bool)
      reads this
      requires Valid() && AnswersOnScreen()
      ensures b <==> SubmitShown() && forall q :: q in questions ==> q.id in answers
    {
      var b := SubmitShown() && |answers.Keys| >= |questions|;
      if selectedTopic.Some? then
        SessionIdsUnique(selectedTopic.value);
        SubmitCountMeansAllAnswered(questions, answers);
        b
      else
        b
    }

    /** Choosing a topic loads its questions, clears the answers and rewinds the cursor. */
    method HandleTopicSelect(choice: TopicChoice)
      modifies this
      ensures Valid() && AnswersOnScreen()
      ensures selectedTopic == Some(choice)
      ensures questions == QuestionsFor(Constants.QuizQuestions, choice)
      ensures answers == map[] && currentQuestionIndex == 0
    {
      selectedTopic := Some(choice);
      questions := if choice == All then Constants.QuizQuestions else TopicFilter(Constants.QuizQuestions, choice.topic);
      answers := map[];
      currentQuestionIndex := 0;
    }

    /** Back to topic selection: the question list is dropped, the answers are kept. */
    method HandleResetTopic()
      requires Valid()
      modifies this
      ensures Valid()
      ensures selectedTopic == None && questions == []
      ensures answers == old(answers) && currentQuestionIndex == old(currentQuestionIndex)
    {
      selectedTopic := None;
      questions := [];
    }

    /** Records `optionId` for `questionId`, overwriting any earlier choice. */
    method HandleOptionSelect(questionId: string, optionId: string)
      requires Valid()
      modifies this
      ensures Valid()
      ensures answers == old(answers)[questionId := optionId]
      ensures answers.Keys == old(answers).Keys + {questionId}
      ensures answers[questionId] == optionId
      ensures forall k :: k in old(answers) && k != questionId ==> answers[k] == old(answers)[k]
      ensures selectedTopic == old(selectedTopic) && questions == old(questions)
      ensures currentQuestionIndex == old(currentQuestionIndex)
    {
      answers := answers[questionId := optionId];
    }

    /** The radio button for option `l` of the question on screen. */
    method ChooseDisplayedOption(l: int)
      requires Valid() && CurrentQuestion().Some?
      requires 0 <= l < |CurrentQuestion().value.options|
      modifies this
      ensures Valid()
      ensures old(AnswersOnScreen()) ==> AnswersOnScreen()
      ensures answers == old(answers)[old(CurrentQuestion()).value.id := old(CurrentQuestion()).value.options[l].id]
      ensures selectedTopic == old(selectedTopic) && questions == old(questions)
      ensures currentQuestionIndex == old(currentQuestionIndex)
    {
      var q := questions[currentQuestionIndex];
      ghost var before := AnswersOnScreen();
      if before {
        AnswerOfQuestionFits(questions, answers, currentQuestionIndex, l);
      }
      HandleOptionSelect(q.id, q.options[l].id);
    }

    /** Advances the cursor by one unless it is on the last question. */
    method HandleNext()
      requires Valid()
      modifies this
      ensures Valid()
      ensures currentQuestionIndex == if old(currentQuestionIndex) < |questions| - 1
                                      then old(currentQuestionIndex) + 1 else old(currentQuestionIndex)
      ensures selectedTopic == old(selectedTopic) && questions == old(questions) && answers == old(answers)
    {
      if currentQuestionIndex < |questions| - 1 {
        currentQuestionIndex := currentQuestionIndex + 1;
      }
    }

    /** Hands the recorded answers to the scorer. */
    method HandleSubmit() returns (submitted: QuizAnswers)
      requires Valid() && AnswersOnScreen() && SubmitEnabled()
      ensures submitted == answers
      ensures MockApi.ScoredSet(Constants.QuizQuestions, submitted) == questions
    {
      submitted := answers;
      Constants.QuizQuestionsIdsDistinct();
      SubmittedQuizIsScoredSet(Constants.QuizQuestions, selectedTopic.value, answers);
    }
  }

  /** The questions any topic button loads have unique ids. */
  lemma SessionIdsUnique(choice: TopicChoice)
    ensures Constants.UniqueQuestionIds(QuestionsFor(Constants.QuizQuestions, choice))
  {
    Constants.QuizQuestionsIdsDistinct();
    if choice.OneTopic? {
      TopicFilterUniqueIds(Constants.QuizQuestions, choice.topic);
    }
  }
}
