/** The placement-quiz scorer (`completeQuiz`): it infers the scored set from
    the answered question ids, counts correct answers, collects the topics of
    the missed questions and applies the 80% pass threshold. */
module MockApi {
  import opened Types
  import Constants

  // ---------------------------------------------------------------------
  // Specification functions

  /** The questions of `bank` whose id was answered, in bank order. */
  function ScoredSet(bank: seq<QuizQuestion>, answers: QuizAnswers): (r: seq<QuizQuestion>)
    ensures |r| <= |bank|
    ensures forall q :: q in r <==> q in bank && q.id in answers
  {
    if bank == [] then []
    else
      var last := bank[|bank| - 1];
      ScoredSet(bank[..|bank| - 1], answers) + (if last.id in answers then [last] else [])
  }

  /** The answer recorded for `q` is its correct option (`answers[q.id] === q.correctOptionId`). */
  predicate IsCorrect(q: QuizQuestion, answers: QuizAnswers)
    ensures IsCorrect(q, answers) && Constants.CorrectOptionOwned(q) ==>
      q.id in answers && exists k :: 0 <= k < |q.options| && q.options[k].id == answers[q.id]
  {
    q.id in answers && answers[q.id] == q.correctOptionId
  }

  /** Number of questions of `qs` answered correctly. */
  function CorrectCount(qs: seq<QuizQuestion>, answers: QuizAnswers): (r: nat)
    ensures r <= |qs|
  {
    if qs == [] then 0
    else CorrectCount(qs[..|qs| - 1], answers) + (if IsCorrect(qs[|qs| - 1], answers) then 1 else 0)
  }

  /** Topics of the questions of `qs` not answered correctly, one per miss, in order. */
  function MissedTopics(qs: seq<QuizQuestion>, answers: QuizAnswers): (r: seq<QuizTopic>)
    ensures |r| <= |qs|
  {
    if qs == [] then []
    else
      var last := qs[|qs| - 1];
      MissedTopics(qs[..|qs| - 1], answers) + (if IsCorrect(last, answers) then [] else [last.topic])
  }

  /** The 80% threshold `score / n >= 0.8`, cross-multiplied; an empty quiz never passes. */
  predicate Passes(score: int, n: int)
    ensures n > 0 ==> (Passes(score, n) <==> 5 * (n - score) <= n)
  {
    n > 0 && 5 * score >= 4 * n
  }

  // ---------------------------------------------------------------------
  // The scorer

  /** Grades `answers` against `bank` for user `userId`. The clock readings
      and the generated result id are parameters. */
  method CompleteQuiz(
    userId: string, answers: QuizAnswers, bank: seq<QuizQuestion>,
    resultId: string, startedAt: string, completedAt: string)
    returns (r: PlacementQuiz)
    ensures r.id == resultId && r.userId == userId
    ensures r.startedAt == startedAt && r.completedAt == completedAt
    ensures r.score == CorrectCount(ScoredSet(bank, answers), answers)
    ensures r.misses == MissedTopics(ScoredSet(bank, answers), answers)
    ensures r.passed <==> Passes(r.score, |ScoredSet(bank, answers)|)
    ensures ScoredSet(bank, answers) == [] ==> r.score == 0 && !r.passed && r.misses == []
  {
    var score := 0;
    var misses: seq<QuizTopic> := [];
    var questionsInQuiz := ScoredSet(bank, answers);
    if |questionsInQuiz| == 0 {
      return PlacementQuiz(resultId, userId, startedAt, completedAt, 0, false, []);
    }
    var i := 0;
    while i < |questionsInQuiz|
      invariant 0 <= i <= |questionsInQuiz|
      invariant score == CorrectCount(questionsInQuiz[..i], answers)
      invariant misses == MissedTopics(questionsInQuiz[..i], answers)
    {
      var question := questionsInQuiz[i];
      assert questionsInQuiz[..i + 1][..i] == questionsInQuiz[..i];
      if question.id in answers && answers[question.id] == question.correctOptionId {
        score := score + 1;
      } else {
        misses := misses + [question.topic];
      }
      i := i + 1;
    }
    assert questionsInQuiz[..i] == questionsInQuiz;
    var passed := 5 * score >= 4 * |questionsInQuiz|;
    r := PlacementQuiz(resultId, userId, startedAt, completedAt, score, passed, misses);
  }

  // ---------------------------------------------------------------------
  // Properties of the scored set

  /** Filtering distributes over concatenation: the scored set keeps bank order. */
  lemma {:induction false} ScoredSetAppend(a: seq<QuizQuestion>, b: seq<QuizQuestion>, answers: QuizAnswers)
    ensures ScoredSet(a + b, answers) == ScoredSet(a, answers) + ScoredSet(b, answers)
  {
    if b != [] {
      var init := b[..|b| - 1];
      assert (a + b)[..|a + b| - 1] == a + init;
      ScoredSetAppend(a, init, answers);
    } else {
      assert a + b == a;
    }
  }

  /** A single question is scored exactly when its id was answered. */
  lemma ScoredSetSingleton(q: QuizQuestion, answers: QuizAnswers)
    ensures ScoredSet([q], answers) == if q.id in answers then [q] else []
  {
    assert [q][..0] == [];
  }

  /** Answer keys that are not the id of any bank question do not affect the scored set. */
  lemma {:induction false} ScoredSetIgnoresForeignKeys(bank: seq<QuizQuestion>, answers: QuizAnswers, k: string, v: string)
    requires forall i :: 0 <= i < |bank| ==> bank[i].id != k
    ensures ScoredSet(bank, answers[k := v]) == ScoredSet(bank, answers)
  {
    if bank != [] {
      ScoredSetIgnoresForeignKeys(bank[..|bank| - 1], answers, k, v);
    }
  }

  /** No answers, no scored questions. */
  lemma {:induction false} ScoredSetEmptyAnswers(bank: seq<QuizQuestion>)
    ensures ScoredSet(bank, map[]) == []
  {
    if bank != [] {
      ScoredSetEmptyAnswers(bank[..|bank| - 1]);
    }
  }

  // ---------------------------------------------------------------------
  // Properties of score and misses

  /** Every scored question is either counted correct or contributes one miss. */
  lemma {:induction false} ScorePlusMisses(qs: seq<QuizQuestion>, answers: QuizAnswers)
    ensures CorrectCount(qs, answers) + |MissedTopics(qs, answers)| == |qs|
  {
    if qs != [] {
      ScorePlusMisses(qs[..|qs| - 1], answers);
    }
  }

  /** Each miss is the topic of a scored question that was answered incorrectly. */
  lemma {:induction false} MissesFromIncorrect(qs: seq<QuizQuestion>, answers: QuizAnswers, m: int)
    requires 0 <= m < |MissedTopics(qs, answers)|
    ensures exists q :: q in qs && !IsCorrect(q, answers) && q.topic == MissedTopics(qs, answers)[m]
  {
    var init := qs[..|qs| - 1];
    var last := qs[|qs| - 1];
    if m < |MissedTopics(init, answers)| {
      MissesFromIncorrect(init, answers, m);
      var q :| q in init && !IsCorrect(q, answers) && q.topic == MissedTopics(init, answers)[m];
      assert q in qs;
    } else {
      assert !IsCorrect(last, answers) && last.topic == MissedTopics(qs, answers)[m];
    }
  }

  /** Every incorrectly answered question's topic is among the misses. */
  lemma {:induction false} IncorrectInMisses(qs: seq<QuizQuestion>, answers: QuizAnswers, q: QuizQuestion)
    requires q in qs && !IsCorrect(q, answers)
    ensures q.topic in MissedTopics(qs, answers)
  {
    var init := qs[..|qs| - 1];
    if q != qs[|qs| - 1] {
      assert q in init by { assert qs == init + [qs[|qs| - 1]]; }
      IncorrectInMisses(init, answers, q);
    }
  }

  /** All scored questions answered correctly, no misses, and conversely. */
  lemma {:induction false} AllCorrectNoMisses(qs: seq<QuizQuestion>, answers: QuizAnswers)
    ensures CorrectCount(qs, answers) == |qs| <==> MissedTopics(qs, answers) == []
    ensures MissedTopics(qs, answers) == [] <==> forall q :: q in qs ==> IsCorrect(q, answers)
  {
    ScorePlusMisses(qs, answers);
    if MissedTopics(qs, answers) != [] {
      MissesFromIncorrect(qs, answers, 0);
    }
    if exists q :: q in qs && !IsCorrect(q, answers) {
      var q :| q in qs && !IsCorrect(q, answers);
      IncorrectInMisses(qs, answers, q);
    }
  }

  /** The integer threshold is the exact fraction test `score / n >= 0.8`. */
  lemma PassesIsEightyPercent(score: int, n: int)
    requires n > 0
    ensures Passes(score, n) <==> (score as real) / (n as real) >= 0.8
  {
    assert Passes(score, n) <==> 5 * score >= 4 * n;
    var ratio := (score as real) / (n as real);
    assert ratio * (n as real) == score as real;
    if ratio >= 0.8 {
      assert ratio * (n as real) >= 0.8 * (n as real);
    } else {
      assert ratio * (n as real) < 0.8 * (n as real);
    }
  }

  /** On five questions, four correct pass and three correct fail. */
  lemma ThresholdBoundary()
    ensures Passes(4, 5) && !Passes(3, 5)
    ensures forall s :: 0 <= s <= 5 ==> (Passes(s, 5) <==> s >= 4)
  {
  }

  /** Answering a question with an option of a different question is a miss
      in a well-formed bank. */
  lemma ForeignOptionIsMiss(bank: seq<QuizQuestion>, answers: QuizAnswers, i: int, j: int, l: int)
    requires Constants.WellFormedBank(bank)
    requires 0 <= i < |bank| && 0 <= j < |bank| && i != j && 0 <= l < |bank[j].options|
    requires bank[i].id in answers && answers[bank[i].id] == bank[j].options[l].id
    ensures !IsCorrect(bank[i], answers)
  {
    assert Constants.CorrectOptionOwned(bank[i]);
    var k :| 0 <= k < |bank[i].options| && bank[i].options[k].id == bank[i].correctOptionId;
    if i < j {
      assert bank[i].options[k].id != bank[j].options[l].id;
    } else {
      assert bank[j].options[l].id != bank[i].options[k].id;
    }
  }

  /** Grading only looks at answers to bank questions: an extra key changes nothing. */
  lemma {:induction false} GradeIgnoresForeignKeys(qs: seq<QuizQuestion>, answers: QuizAnswers, k: string, v: string)
    requires forall i :: 0 <= i < |qs| ==> qs[i].id != k
    ensures CorrectCount(qs, answers[k := v]) == CorrectCount(qs, answers)
    ensures MissedTopics(qs, answers[k := v]) == MissedTopics(qs, answers)
  {
    if qs != [] {
      GradeIgnoresForeignKeys(qs[..|qs| - 1], answers, k, v);
    }
  }

  /** The score never exceeds the bank size; for the shipped bank that is 5. */
  lemma ScoreAtMostBank(bank: seq<QuizQuestion>, answers: QuizAnswers)
    ensures CorrectCount(ScoredSet(bank, answers), answers) <= |bank|
    ensures CorrectCount(ScoredSet(Constants.QuizQuestions, answers), answers) <= 5
  {
  }

  // ---------------------------------------------------------------------
  // Scenarios on the shipped bank

  /** When every bank question was answered, the whole bank is scored. */
  lemma {:induction false} ScoredSetAllAnswered(bank: seq<QuizQuestion>, answers: QuizAnswers)
    requires forall i :: 0 <= i < |bank| ==> bank[i].id in answers
    ensures ScoredSet(bank, answers) == bank
  {
    if bank != [] {
      var init := bank[..|bank| - 1];
      forall i | 0 <= i < |init| ensures init[i].id in answers {
        assert init[i] == bank[i];
      }
      ScoredSetAllAnswered(init, answers);
      assert bank == init + [bank[|bank| - 1]];
    }
  }

  /** Answers to all five shipped questions, all correct except the safety question. */
  const AllButSafety: QuizAnswers :=
    map["q1" := "q1a2", "q2" := "q2a3", "q3" := "q3a3", "q4" := "q4a2", "q5" := "q5a1"]

  lemma AllButSafetyCorrectness()
    ensures forall i :: 0 <= i < |Constants.QuizQuestions| ==> Constants.QuizQuestions[i].id in AllButSafety
    ensures forall i :: 0 <= i < 4 ==> IsCorrect(Constants.QuizQuestions[i], AllButSafety)
    ensures !IsCorrect(Constants.QuizQuestions[4], AllButSafety)
  {
  }

  lemma AllButSafetyCounts()
    ensures CorrectCount(Constants.QuizQuestions, AllButSafety) == 4
    ensures MissedTopics(Constants.QuizQuestions, AllButSafety) == [Safety]
  {
    var bank := Constants.QuizQuestions;
    AllButSafetyCorrectness();
    assert bank[..5] == bank;
    assert bank[..1][..0] == [] && bank[..2][..1] == bank[..1] && bank[..3][..2] == bank[..2];
    assert bank[..4][..3] == bank[..3] && bank[..5][..4] == bank[..4];
    assert CorrectCount(bank[..1], AllButSafety) == 1 && MissedTopics(bank[..1], AllButSafety) == [];
    assert CorrectCount(bank[..2], AllButSafety) == 2 && MissedTopics(bank[..2], AllButSafety) == [];
    assert CorrectCount(bank[..3], AllButSafety) == 3 && MissedTopics(bank[..3], AllButSafety) == [];
    assert CorrectCount(bank[..4], AllButSafety) == 4 && MissedTopics(bank[..4], AllButSafety) == [];
  }

  /** All five answered, all correct but the safety question: score 4, pass, one miss. */
  lemma ScenarioAllButSafety()
    ensures
      var scored := ScoredSet(Constants.QuizQuestions, AllButSafety);
      && scored == Constants.QuizQuestions
      && CorrectCount(scored, AllButSafety) == 4
      && Passes(4, |scored|)
      && MissedTopics(scored, AllButSafety) == [Safety]
      && TopicName(MissedTopics(scored, AllButSafety)[0]) == "Job Site Safety"
  {
    AllButSafetyCorrectness();
    ScoredSetAllAnswered(Constants.QuizQuestions, AllButSafety);
    AllButSafetyCounts();
  }

  /** Of five questions, exactly the second and fourth are answered. */
  lemma ScoredSecondAndFourth(bank: seq<QuizQuestion>, answers: QuizAnswers)
    requires |bank| == 5
    requires bank[1].id in answers && bank[3].id in answers
    requires bank[0].id !in answers && bank[2].id !in answers && bank[4].id !in answers
    ensures ScoredSet(bank, answers) == [bank[1], bank[3]]
  {
    assert bank[..5] == bank;
    assert bank[..1][..0] == [] && bank[..2][..1] == bank[..1] && bank[..3][..2] == bank[..2];
    assert bank[..4][..3] == bank[..3] && bank[..5][..4] == bank[..4];
    assert ScoredSet(bank[..1], answers) == [];
    assert ScoredSet(bank[..2], answers) == [bank[1]];
    assert ScoredSet(bank[..3], answers) == [bank[1]];
    assert ScoredSet(bank[..4], answers) == [bank[1], bank[3]];
  }

  /** Two correctly answered questions score two and miss nothing. */
  lemma TwoCorrect(a: QuizQuestion, b: QuizQuestion, answers: QuizAnswers)
    requires IsCorrect(a, answers) && IsCorrect(b, answers)
    ensures CorrectCount([a, b], answers) == 2 && MissedTopics([a, b], answers) == []
  {
    assert [a, b][..1] == [a] && [a][..0] == [];
  }

  /** Correct answers to the visual-inspection and WPS questions only. */
  const TwoAnswered: QuizAnswers := map["q2" := "q2a3", "q4" := "q4a2"]

  lemma TwoAnsweredFacts()
    ensures |Constants.QuizQuestions| == 5
    ensures Constants.QuizQuestions[1].id in TwoAnswered && Constants.QuizQuestions[3].id in TwoAnswered
    ensures Constants.QuizQuestions[0].id !in TwoAnswered
    ensures Constants.QuizQuestions[2].id !in TwoAnswered
    ensures Constants.QuizQuestions[4].id !in TwoAnswered
    ensures IsCorrect(Constants.QuizQuestions[1], TwoAnswered) && IsCorrect(Constants.QuizQuestions[3], TwoAnswered)
  {
  }

  /** Only two of the five answered, both correctly: the scored set has two questions and passes. */
  lemma ScenarioTwoAnswered()
    ensures
      var scored := ScoredSet(Constants.QuizQuestions, TwoAnswered);
      && scored == [Constants.QuizQuestions[1], Constants.QuizQuestions[3]]
      && CorrectCount(scored, TwoAnswered) == 2
      && Passes(2, |scored|)
      && MissedTopics(scored, TwoAnswered) == []
  {
    TwoAnsweredFacts();
    ScoredSecondAndFourth(Constants.QuizQuestions, TwoAnswered);
    TwoCorrect(Constants.QuizQuestions[1], Constants.QuizQuestions[3], TwoAnswered);
  }
}
