/** Data contracts of the placement-quiz pipeline: roles, badge keys, quiz
    topics, users, questions, answer sets and quiz results. */
module Types {

  datatype Option<T> = None | Some(value: T)

  datatype Role = Learner | Mentor

  datatype BadgeKey = FoundationVerified | ClauseMaster | AcademyMentor | TopContributor

  datatype QuizTopic = WeldingSymbols | VisualInspection | CodeNavigation | WPS | Safety

  /** The five topics in declaration order (the order `Object.values(QuizTopic)` lists them). */
  const AllTopics: seq<QuizTopic> := [WeldingSymbols, VisualInspection, CodeNavigation, WPS, Safety]

  /** The string value each role carries in serialized records. */
  function RoleName(r: Role): string
  {
    match r
    case Learner => "learner"
    case Mentor => "mentor"
  }

  /** The string value each badge key carries in serialized records. */
  function BadgeKeyName(k: BadgeKey): string
  {
    match k
    case FoundationVerified => "foundation_verified"
    case ClauseMaster => "clause_master"
    case AcademyMentor => "academy_mentor"
    case TopContributor => "top_contributor"
  }

  /** The string value each topic carries; this is what a result's `misses` holds once serialized. */
  function TopicName(t: QuizTopic): string
  {
    match t
    case WeldingSymbols => "Welding Symbols"
    case VisualInspection => "Visual Inspection Criteria"
    case CodeNavigation => "Code & Standards Navigation"
    case WPS => "Welder & Procedure Qualification"
    case Safety => "Job Site Safety"
  }

  datatype Badge = Badge(badgeKey: BadgeKey, earnedAt: string, evidence: Option<string>)

  datatype CommunityProfile = CommunityProfile(headline: string, bio: string)

  datatype UserStats = UserStats(challengeStreak: int, helpfulPosts: int)

  datatype User = User(
    id: string,
    name: string,
    avatarUrl: string,
    role: Role,
    badges: seq<Badge>,
    communityProfile: CommunityProfile,
    stats: UserStats)

  /** A graded quiz as the scorer returns it (`PlacementQuiz`). */
  datatype PlacementQuiz = PlacementQuiz(
    id: string,
    userId: string,
    startedAt: string,
    completedAt: string,
    score: int,
    passed: bool,
    misses: seq<QuizTopic>)

  datatype QuizOption = QuizOption(id: string, text: string)

  datatype QuizQuestion = QuizQuestion(
    id: string,
    topic: QuizTopic,
    questionText: string,
    options: seq<QuizOption>,
    correctOptionId: string)

  /** question id -> selected option id */
  type QuizAnswers = map<string, string>

  /** True iff some badge in `badges` carries key `k` (`badges.some(b => b.badge_key === k)`). */
  predicate HasBadge(badges: seq<Badge>, k: BadgeKey)
  {
    exists i :: 0 <= i < |badges| && badges[i].badgeKey == k
  }

  /** No badge key occurs twice in the collection. */
  predicate UniqueBadgeKeys(badges: seq<Badge>)
  {
    forall i, j :: 0 <= i < j < |badges| ==> badges[i].badgeKey != badges[j].badgeKey
  }

  /** Number of badges in `badges` carrying key `k`. */
  function CountBadge(badges: seq<Badge>, k: BadgeKey): nat
  {
    if badges == [] then 0
    else (if badges[|badges| - 1].badgeKey == k then 1 else 0) + CountBadge(badges[..|badges| - 1], k)
  }

  lemma {:induction false} CountBadgeZero(badges: seq<Badge>, k: BadgeKey)
    ensures CountBadge(badges, k) == 0 <==> !HasBadge(badges, k)
  {
    if badges != [] {
      var init := badges[..|badges| - 1];
      CountBadgeZero(init, k);
      if HasBadge(init, k) {
        var i :| 0 <= i < |init| && init[i].badgeKey == k;
        assert badges[i].badgeKey == k;
      }
      if HasBadge(badges, k) && badges[|badges| - 1].badgeKey != k {
        var i :| 0 <= i < |badges| && badges[i].badgeKey == k;
        assert init[i].badgeKey == k;
      }
    }
  }

  /** The topic names are pairwise distinct, so `misses` serialized as strings loses nothing. */
  lemma TopicNameInjective(s: QuizTopic, t: QuizTopic)
    ensures TopicName(s) == TopicName(t) ==> s == t
  {
    if s != t {
      assert TopicName(s)[0] != TopicName(t)[0] || |TopicName(s)| != |TopicName(t)|;
    }
  }
}
