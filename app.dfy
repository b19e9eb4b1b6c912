/** The application shell: the pure FoundationVerified badge merge and the
    view controller that moves between user selection, quiz, result and
    dashboard. */
module AppView {
  import opened Types
  import Constants
  import MockApi

  datatype View = UserSelection | Quiz | Result | Dashboard

  const PassEvidence: string := "Passed placement quiz"

  /** The badge a passing quiz earns. */
  function FoundationBadge(earnedAt: string): Badge
  {
    Badge(FoundationVerified, earnedAt, Some(PassEvidence))
  }

  /** The user after a graded quiz: a FoundationVerified badge is appended
      when the quiz passed and the user does not hold one yet. `earnedAt` is
      the clock reading the badge is stamped with. */
  function MergeBadge(prev: User, result: PlacementQuiz, earnedAt: string): (u: User)
    ensures prev.badges <= u.badges
    ensures |u.badges| == |prev.badges| + (if result.passed && !HasBadge(prev.badges, FoundationVerified) then 1 else 0)
    ensures |u.badges| > |prev.badges| ==> u.badges[|prev.badges|] == FoundationBadge(earnedAt)
    ensures u.(badges := prev.badges) == prev
  {
    if result.passed && !HasBadge(prev.badges, FoundationVerified) then
      prev.(badges := prev.badges + [FoundationBadge(earnedAt)])
    else
      prev
  }

  /** After the merge the user holds FoundationVerified iff they held it before or the quiz passed. */
  lemma MergeHasBadge(prev: User, result: PlacementQuiz, earnedAt: string)
    ensures HasBadge(MergeBadge(prev, result, earnedAt).badges, FoundationVerified)
            <==> HasBadge(prev.badges, FoundationVerified) || result.passed
    ensures forall k :: k != FoundationVerified ==>
              (HasBadge(MergeBadge(prev, result, earnedAt).badges, k) <==> HasBadge(prev.badges, k))
  {
    var u := MergeBadge(prev, result, earnedAt);
    if result.passed && !HasBadge(prev.badges, FoundationVerified) {
      assert u.badges[|prev.badges|].badgeKey == FoundationVerified;
      forall k | k != FoundationVerified && HasBadge(u.badges, k)
        ensures HasBadge(prev.badges, k)
      {
        var i :| 0 <= i < |u.badges| && u.badges[i].badgeKey == k;
        assert prev.badges[i].badgeKey == k;
      }
    }
    forall k | HasBadge(prev.badges, k) ensures HasBadge(u.badges, k) {
      var i :| 0 <= i < |prev.badges| && prev.badges[i].badgeKey == k;
      assert u.badges[i].badgeKey == k;
    }
  }

  /** Merging the same result a second time changes nothing. */
  lemma MergeIdempotent(prev: User, result: PlacementQuiz, t1: string, t2: string)
    ensures MergeBadge(MergeBadge(prev, result, t1), result, t2) == MergeBadge(prev, result, t1)
  {
    MergeHasBadge(prev, result, t1);
  }

  /** The merge keeps every badge key unique: it never duplicates a badge. */
  lemma MergeKeepsKeysUnique(prev: User, result: PlacementQuiz, earnedAt: string)
    requires UniqueBadgeKeys(prev.badges)
    ensures UniqueBadgeKeys(MergeBadge(prev, result, earnedAt).badges)
  {
    var u := MergeBadge(prev, result, earnedAt);
    if result.passed && !HasBadge(prev.badges, FoundationVerified) {
      forall i, j | 0 <= i < j < |u.badges| ensures u.badges[i].badgeKey != u.badges[j].badgeKey {
        if j == |prev.badges| {
          assert u.badges[i] == prev.badges[i];
        }
      }
    }
  }

  /** Starting with no FoundationVerified badge, merging a passing result twice
      leaves exactly one. */
  lemma MergeTwiceOneBadge(prev: User, result: PlacementQuiz, t1: string, t2: string)
    requires result.passed && !HasBadge(prev.badges, FoundationVerified)
    ensures CountBadge(MergeBadge(MergeBadge(prev, result, t1), result, t2).badges, FoundationVerified) == 1
  {
    MergeIdempotent(prev, result, t1, t2);
    var u := MergeBadge(prev, result, t1);
    CountBadgeZero(prev.badges, FoundationVerified);
    assert u.badges[..|u.badges| - 1] == prev.badges;
  }

  // ---------------------------------------------------------------------
  // The view controller

  /** What the shell renders. */
  datatype Screen =
    | Spinner
    | UserPicker(users: seq<User>)
    | QuizScreen(user: User)
    | ResultScreen(result: PlacementQuiz, user: User)
    | DashboardScreen(user: User, lastResult: Option<PlacementQuiz>)
    | Blank

  /** The clock readings and generated id one quiz submission uses. */
  datatype SubmitClock = SubmitClock(resultId: string, startedAt: string, completedAt: string, earnedAt: string)

  /** `r` is the record the scorer gives for `answers`, submitted by `userId`
      with the clock readings of `clock`. */
  ghost predicate GradedAs(r: PlacementQuiz, userId: string, answers: QuizAnswers, clock: SubmitClock)
  {
    var scored := MockApi.ScoredSet(Constants.QuizQuestions, answers);
    && r.id == clock.resultId
    && r.userId == userId
    && r.startedAt == clock.startedAt
    && r.completedAt == clock.completedAt
    && r.score == MockApi.CorrectCount(scored, answers)
    && r.misses == MockApi.MissedTopics(scored, answers)
    && r.passed == MockApi.Passes(r.score, |scored|)
  }

  class AppState {
    var currentUser: Option<User>
    var currentView: View
    var quizResult: Option<PlacementQuiz>
    var isLoading: bool

    /** The quiz and dashboard views have a user; the result view has a result. */
    ghost predicate Valid()
      reads this
    {
      && (currentView == Quiz || currentView == Dashboard ==> currentUser.Some?)
      && (currentView == Result ==> quizResult.Some?)
    }

    /** Valid, and the result view has its user as well. */
    ghost predicate Coherent()
      reads this
    {
      Valid() && (currentView == Result ==> currentUser.Some?)
    }

    constructor ()
      ensures Coherent()
      ensures currentUser == None && currentView == UserSelection && quizResult == None && !isLoading
    {
      currentUser := None;
      currentView := UserSelection;
      quizResult := None;
      isLoading := false;
    }

    /** The screen `renderContent` produces for the current state. The result
        view renders nothing without a user; under `Valid` the user guards of
        the quiz and dashboard views always hold. */
    function Screen(): (s: Screen)
      reads this
      requires Valid()
      ensures isLoading <==> s == Spinner
      ensures s == Blank <==> !isLoading && currentView == Result && currentUser.None?
      ensures Coherent() ==> s != Blank
      ensures !isLoading && currentView == Result && currentUser.Some? ==>
        s == ResultScreen(quizResult.value, currentUser.value)
    {
      if isLoading then Spinner
      else match currentView
        case UserSelection => UserPicker([Constants.Maria, Constants.Jamal])
        case Quiz => QuizScreen(currentUser.value)
        case Result => if currentUser.Some? then ResultScreen(quizResult.value, currentUser.value) else Blank
        case Dashboard => DashboardScreen(currentUser.value, quizResult)
    }

    /** Picking a user: mentors go to the dashboard, everybody else to the quiz. */
    method HandleUserSelect(user: User)
      requires Valid()
      modifies this
      ensures Coherent()
      ensures currentUser == Some(user)
      ensures currentView == (if user.role == Mentor then Dashboard else Quiz)
      ensures quizResult == old(quizResult) && isLoading == old(isLoading)
    {
      currentUser := Some(user);
      if user.role == Mentor {
        currentView := Dashboard;
      } else {
        currentView := Quiz;
      }
    }

    /** The part of `handleQuizComplete` before the grading call: without a
        user nothing happens; otherwise loading starts and the user's id is
        captured for the call. */
    method BeginGrading() returns (pending: Option<string>)
      requires Valid()
      modifies this
      ensures Valid() && (old(Coherent()) ==> Coherent())
      ensures pending == (if old(currentUser).Some? then Some(old(currentUser).value.id) else None)
      ensures isLoading == (old(isLoading) || old(currentUser).Some?)
      ensures currentUser == old(currentUser) && currentView == old(currentView) && quizResult == old(quizResult)
    {
      if currentUser.None? {
        return None;
      }
      isLoading := true;
      pending := Some(currentUser.value.id);
    }

    /** The part of `handleQuizComplete` after the grading call, as written.
        A failed call (`callFails`) only ends loading. Otherwise the result is
        stored, the badge merge is applied to whoever is the user now (nobody
        stays nobody) and the result view is selected, even when the user was
        switched away during the call. */
    method FinishGrading(userId: string, answers: QuizAnswers, clock: SubmitClock, callFails: bool)
      requires Valid()
      modifies this
      ensures Valid() && !isLoading
      ensures callFails ==>
        currentUser == old(currentUser) && currentView == old(currentView) && quizResult == old(quizResult)
      ensures !callFails ==>
        && currentView == Result
        && quizResult.Some?
        && GradedAs(quizResult.value, userId, answers, clock)
        && currentUser == (if old(currentUser).Some?
                           then Some(MergeBadge(old(currentUser).value, quizResult.value, clock.earnedAt))
                           else None)
    {
      if !callFails {
        var result := MockApi.CompleteQuiz(userId, answers, Constants.QuizQuestions,
                                           clock.resultId, clock.startedAt, clock.completedAt);
        quizResult := Some(result);
        if currentUser.Some? {
          currentUser := Some(MergeBadge(currentUser.value, result, clock.earnedAt));
        }
        currentView := Result;
      }
      isLoading := false;
    }

    /** `FinishGrading` as evidently intended: a result that arrives after the
        user was switched away is dropped, so the user picker stays on screen. */
    method FinishGradingIntended(userId: string, answers: QuizAnswers, clock: SubmitClock, callFails: bool)
      requires Valid()
      modifies this
      ensures Valid() && !isLoading
      ensures old(Coherent()) ==> Coherent()
      ensures callFails || old(currentUser).None? ==>
        currentUser == old(currentUser) && currentView == old(currentView) && quizResult == old(quizResult)
      ensures !callFails && old(currentUser).Some? ==>
        && currentView == Result
        && quizResult.Some?
        && GradedAs(quizResult.value, userId, answers, clock)
        && currentUser == Some(MergeBadge(old(currentUser).value, quizResult.value, clock.earnedAt))
    {
      if !callFails && currentUser.Some? {
        var result := MockApi.CompleteQuiz(userId, answers, Constants.QuizQuestions,
                                           clock.resultId, clock.startedAt, clock.completedAt);
        quizResult := Some(result);
        currentUser := Some(MergeBadge(currentUser.value, result, clock.earnedAt));
        currentView := Result;
      }
      isLoading := false;
    }

    /** Submitting a finished quiz when nothing happens during the grading
        call. Without a current user nothing happens. When the call fails,
        user, result and view stay as they were; otherwise the result is
        stored, the badge merge is applied to the user and the result view is
        shown. Loading is off afterwards. */
    method HandleQuizComplete(answers: QuizAnswers, clock: SubmitClock, callFails: bool)
      requires Valid()
      modifies this
      ensures Valid() && (old(Coherent()) ==> Coherent())
      ensures old(currentUser).None? ==>
        currentUser == old(currentUser) && currentView == old(currentView) &&
        quizResult == old(quizResult) && isLoading == old(isLoading)
      ensures old(currentUser).Some? ==> !isLoading
      ensures old(currentUser).Some? && callFails ==>
        currentUser == old(currentUser) && currentView == old(currentView) && quizResult == old(quizResult)
      ensures old(currentUser).Some? && !callFails ==>
        && currentView == Result
        && quizResult.Some?
        && GradedAs(quizResult.value, old(currentUser).value.id, answers, clock)
        && currentUser == Some(MergeBadge(old(currentUser).value, quizResult.value, clock.earnedAt))
    {
      var pending := BeginGrading();
      if pending.Some? {
        FinishGradingIntended(pending.value, answers, clock, callFails);
      }
    }

    /** Continuing from the result view to the dashboard: the Continue button
        exists only on a rendered result screen. */
    method HandleNavigateToDashboard()
      requires Valid() && Screen().ResultScreen?
      modifies this
      ensures Coherent()
      ensures currentView == Dashboard
      ensures currentUser == old(currentUser) && quizResult == old(quizResult) && isLoading == old(isLoading)
    {
      currentView := Dashboard;
    }

    /** Reset: forget the user and the result and go back to user selection.
        Loading is untouched, so a reset during grading keeps the spinner. */
    method HandleReset()
      requires Valid()
      modifies this
      ensures Coherent()
      ensures currentUser == None && quizResult == None && currentView == UserSelection
      ensures isLoading == old(isLoading)
    {
      currentUser := None;
      quizResult := None;
      currentView := UserSelection;
    }
  }

  /** A learner who answers everything right but the safety question ends on
      the result view holding exactly one FoundationVerified badge. */
  method ScenarioMariaPasses(clock: SubmitClock)
  {
    var app := new AppState();
    app.HandleUserSelect(Constants.Maria);
    assert app.currentView == Quiz;
    app.HandleQuizComplete(MockApi.AllButSafety, clock, false);
    MockApi.ScenarioAllButSafety();
    assert app.currentView == Result && app.quizResult.value.passed;
    assert app.quizResult.value.misses == [Safety];
    assert app.currentUser.value.badges == [FoundationBadge(clock.earnedAt)];
    app.HandleReset();
    assert app.currentUser == None && app.currentView == UserSelection;
  }

  /** Switching user while the quiz is being graded, as written: once the
      call returns, the result view is selected with no user and nothing is
      rendered. */
  method ScenarioResetDuringGrading(answers: QuizAnswers, clock: SubmitClock) returns (s: Screen)
    ensures s == Blank
  {
    var app := new AppState();
    app.HandleUserSelect(Constants.Maria);
    var pending := app.BeginGrading();
    app.HandleReset();
    assert app.Screen() == Spinner;
    app.FinishGrading(pending.value, answers, clock, false);
    s := app.Screen();
  }

  /** The same interleaving with the intended finish: the late result is
      dropped and the user picker is shown. */
  method ScenarioResetDuringGradingIntended(answers: QuizAnswers, clock: SubmitClock) returns (s: Screen)
    ensures s == UserPicker([Constants.Maria, Constants.Jamal])
  {
    var app := new AppState();
    app.HandleUserSelect(Constants.Maria);
    var pending := app.BeginGrading();
    app.HandleReset();
    app.FinishGradingIntended(pending.value, answers, clock, false);
    s := app.Screen();
  }
}
