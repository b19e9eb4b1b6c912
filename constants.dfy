/** The static question bank and the mock users, with the well-formedness
    facts about them that grading and topic selection rely on. */
module Constants {
  import opened Types

  const QuizQuestions: seq<QuizQuestion> := [
    QuizQuestion(
      "q1", WeldingSymbols,
      "In a standard AWS welding symbol, where is information about the weld size located?",
      [ QuizOption("q1a1", "In the tail"),
        QuizOption("q1a2", "To the left of the symbol"),
        QuizOption("q1a3", "To the right of the symbol"),
        QuizOption("q1a4", "Below the reference line") ],
      "q1a2"),
    QuizQuestion(
      "q2", VisualInspection,
      "According to AWS D1.1 for structural steel, which of the following is an unacceptable weld profile discontinuity?",
      [ QuizOption("q2a1", "Slight undercut, less than 1/32\""),
        QuizOption("q2a2", "Minimal surface porosity"),
        QuizOption("q2a3", "Excessive convexity"),
        QuizOption("q2a4", "A smooth transition at the weld toes") ],
      "q2a3"),
    QuizQuestion(
      "q3", CodeNavigation,
      "ASME Section IX primarily covers which of the following?",
      [ QuizOption("q3a1", "Rules for Construction of Pressure Vessels"),
        QuizOption("q3a2", "Nondestructive Examination"),
        QuizOption("q3a3", "Welding, Brazing, and Fusing Qualifications"),
        QuizOption("q3a4", "Rules for Inservice Inspection of Nuclear Power Plant Components") ],
      "q3a3"),
    QuizQuestion(
      "q4", WPS,
      "What is the primary purpose of a Procedure Qualification Record (PQR)?",
      [ QuizOption("q4a1", "To provide instructions to the welder for production welding"),
        QuizOption("q4a2", "To document the actual variables used to create an acceptable test weld"),
        QuizOption("q4a3", "To certify a welder's ability to deposit sound weld metal"),
        QuizOption("q4a4", "To list all approved welders for a specific project") ],
      "q4a2"),
    QuizQuestion(
      "q5", Safety,
      "When working in a confined space, what is the primary role of the \"hole watch\" or attendant?",
      [ QuizOption("q5a1", "To assist with the welding or inspection work inside the space"),
        QuizOption("q5a2", "To monitor entrants and conditions, and summon rescue services if needed"),
        QuizOption("q5a3", "To provide ventilation for the confined space"),
        QuizOption("q5a4", "To complete the work permit before entry") ],
      "q5a2")
  ]

  const Maria: User := User(
    "user-maria", "Maria", "https://picsum.photos/seed/maria/100/100", Learner, [],
    CommunityProfile(
      "Aspiring CWI Inspector",
      "Eager to learn code and inspection science. Currently focused on AWS D1.1 fundamentals and visual inspection techniques."),
    UserStats(1, 3))

  const Jamal: User := User(
    "user-jamal", "Jamal", "https://picsum.photos/seed/jamal/100/100", Mentor,
    [ Badge(FoundationVerified, "2023-10-15T10:00:00Z", None),
      Badge(ClauseMaster, "2023-11-20T14:30:00Z", None),
      Badge(TopContributor, "2024-01-05T18:00:00Z", None) ],
    CommunityProfile(
      "Senior CWI | Academy Mentor",
      "10+ years of experience in structural and pipeline inspection. Passionate about mentoring the next generation of inspectors and raising the bar for quality."),
    UserStats(7, 82))

  const MockUsers: map<string, User> := map["user-maria" := Maria, "user-jamal" := Jamal]

  // ---------------------------------------------------------------------
  // Well-formedness of a question bank

  /** No two questions share an id. */
  predicate UniqueQuestionIds(bank: seq<QuizQuestion>)
  {
    forall i, j :: 0 <= i < j < |bank| ==> bank[i].id != bank[j].id
  }

  /** The option a question names as correct is one of its own options. */
  predicate CorrectOptionOwned(q: QuizQuestion)
  {
    exists k :: 0 <= k < |q.options| && q.options[k].id == q.correctOptionId
  }

  /** No two options of one question share an id. */
  predicate UniqueOptionIds(q: QuizQuestion)
  {
    forall k, l :: 0 <= k < l < |q.options| ==> q.options[k].id != q.options[l].id
  }

  /** No option id of one question is an option id of another question. */
  predicate OptionIdsDisjoint(bank: seq<QuizQuestion>)
  {
    forall i, j, k, l ::
      0 <= i < j < |bank| && 0 <= k < |bank[i].options| && 0 <= l < |bank[j].options| ==>
        bank[i].options[k].id != bank[j].options[l].id
  }

  /** Some question of the bank is about topic `t`. */
  predicate TopicHeld(bank: seq<QuizQuestion>, t: QuizTopic)
  {
    exists i :: 0 <= i < |bank| && bank[i].topic == t
  }

  /** Every topic is held by exactly one question. */
  predicate OneQuestionPerTopic(bank: seq<QuizQuestion>)
  {
    && (forall t :: TopicHeld(bank, t))
    && (forall i, j :: 0 <= i < j < |bank| ==> bank[i].topic != bank[j].topic)
  }

  predicate WellFormedBank(bank: seq<QuizQuestion>)
  {
    && UniqueQuestionIds(bank)
    && (forall i :: 0 <= i < |bank| ==> CorrectOptionOwned(bank[i]) && UniqueOptionIds(bank[i]))
    && OptionIdsDisjoint(bank)
  }

  // ---------------------------------------------------------------------
  // Facts about the shipped bank and users

  lemma QuizQuestionsIdsDistinct()
    ensures |QuizQuestions| == 5
    ensures UniqueQuestionIds(QuizQuestions)
  {
  }

  lemma QuizQuestionsCorrectOptionOwned()
    ensures forall i :: 0 <= i < |QuizQuestions| ==> CorrectOptionOwned(QuizQuestions[i])
  {
    assert QuizQuestions[0].options[1].id == QuizQuestions[0].correctOptionId;
    assert QuizQuestions[1].options[2].id == QuizQuestions[1].correctOptionId;
    assert QuizQuestions[2].options[2].id == QuizQuestions[2].correctOptionId;
    assert QuizQuestions[3].options[1].id == QuizQuestions[3].correctOptionId;
    assert QuizQuestions[4].options[1].id == QuizQuestions[4].correctOptionId;
  }

  lemma QuizQuestionsFourOptions()
    ensures forall i :: 0 <= i < |QuizQuestions| ==> |QuizQuestions[i].options| == 4
  {
  }

  /** Option k of question i has the id "q<i+1>a<k+1>". */
  lemma QuizQuestionsOptionIdShape(i: int, k: int)
    requires 0 <= i < |QuizQuestions| && 0 <= k < |QuizQuestions[i].options|
    ensures |QuizQuestions[i].options[k].id| == 4
    ensures QuizQuestions[i].options[k].id[1] == (('1' as int) + i) as char
    ensures QuizQuestions[i].options[k].id[3] == (('1' as int) + k) as char
  {
  }

  lemma QuizQuestionsOptionIdsDistinct()
    ensures forall i :: 0 <= i < |QuizQuestions| ==> UniqueOptionIds(QuizQuestions[i])
    ensures OptionIdsDisjoint(QuizQuestions)
  {
    forall i, k | 0 <= i < |QuizQuestions| && 0 <= k < |QuizQuestions[i].options|
      ensures |QuizQuestions[i].options[k].id| == 4
      ensures QuizQuestions[i].options[k].id[1] == (('1' as int) + i) as char
      ensures QuizQuestions[i].options[k].id[3] == (('1' as int) + k) as char
    {
      QuizQuestionsOptionIdShape(i, k);
    }
  }

  lemma QuizQuestionsTopicOrder()
    ensures forall i :: 0 <= i < |QuizQuestions| ==> QuizQuestions[i].topic == AllTopics[i]
  {
  }

  /** A bank whose questions follow the topic list one by one holds each topic once. */
  lemma TopicOrderOnePerTopic(bank: seq<QuizQuestion>)
    requires |bank| == |AllTopics|
    requires forall i :: 0 <= i < |bank| ==> bank[i].topic == AllTopics[i]
    ensures OneQuestionPerTopic(bank)
  {
    forall t | true ensures TopicHeld(bank, t) {
      match t
      case WeldingSymbols => assert bank[0].topic == t;
      case VisualInspection => assert bank[1].topic == t;
      case CodeNavigation => assert bank[2].topic == t;
      case WPS => assert bank[3].topic == t;
      case Safety => assert bank[4].topic == t;
    }
  }

  lemma QuizQuestionsOnePerTopic()
    ensures OneQuestionPerTopic(QuizQuestions)
    ensures forall i :: 0 <= i < |QuizQuestions| ==> QuizQuestions[i].topic == AllTopics[i]
  {
    QuizQuestionsIdsDistinct();
    QuizQuestionsTopicOrder();
    TopicOrderOnePerTopic(QuizQuestions);
  }

  lemma QuizQuestionsWellFormed()
    ensures WellFormedBank(QuizQuestions)
    ensures OneQuestionPerTopic(QuizQuestions)
  {
    QuizQuestionsOnePerTopic();
    QuizQuestionsIdsDistinct();
    QuizQuestionsCorrectOptionOwned();
    QuizQuestionsOptionIdsDistinct();
  }

  lemma MockUsersWellFormed()
    ensures forall id :: id in MockUsers ==> MockUsers[id].id == id
    ensures forall id :: id in MockUsers ==> UniqueBadgeKeys(MockUsers[id].badges)
    ensures MockUsers["user-maria"].role == Learner && MockUsers["user-jamal"].role == Mentor
    ensures !HasBadge(Maria.badges, FoundationVerified) && HasBadge(Jamal.badges, FoundationVerified)
  {
    assert Jamal.badges[0].badgeKey == FoundationVerified;
  }
}
