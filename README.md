# Placement-quiz pipeline: a verified Dafny model

This project models the core of a welding-inspection training app. Its centre is the
placement-quiz pipeline:

- **Question bank.** A static bank of five questions, one per quiz topic, and two mock users.
- **Quiz session.** The learner picks a topic, answers the questions one at a time and submits.
- **Scorer** (`completeQuiz`). It takes the questions whose ids were answered as the scored set. It counts correct answers, collects the topics of the misses and passes at 80%.
- **App shell.** It stores the result. It appends a FoundationVerified badge to a passing user who does not hold one yet, and it moves between the user-selection, quiz, result and dashboard views.

Three smaller routines sit beside the pipeline:

- **Clause explainer.** The panel splits an AI explanation into heading, break and paragraph lines. It fills a fixed three-section template and runs a small loading/error state machine.
- **Onboarding skills step.** A flag per skill with a toggle, the list of chosen skills, the restore from the session cache, the skill rows written to the database, and the ordered early exits of `finish`.
- **AI service helpers.** The byte/binary-string loops of `encode` and `decode`, with base64 as in section 4 of RFC 4648. Also the tool list and tool config of `groundedSearch`.

There is one module per source file. State the source updates in place becomes a class with `modifies`
clauses. The scorer and the base64 loops are methods with loop invariants, proved against
specification functions. The rest is functions and lemmas.

| module | file | source |
|---|---|---|
| `Types` | types.dfy | types.ts |
| `Constants` | constants.dfy | constants.ts |
| `MockApi` | mockapi.dfy | services/mockApi.ts |
| `AppView` | app.dfy | App.tsx |
| `QuizView` | quizview.dfy | components/QuizView.tsx |
| `ClauseInvestigator` | clauseinvestigator.dfy | components/ClauseInvestigator.tsx |
| `SkillsSelection` | skillsselection.dfy | src/components/onboarding/SkillsSelection.tsx |
| `GeminiService` | geminiservice.dfy | services/geminiService.ts |

Modelling decisions:

- **Pass threshold.** The scorer's test `score / n >= 0.8` is modelled in integers as `n > 0 && 5·score >= 4·n`. `MockApi.PassesIsEightyPercent` proves this agrees with the exact fraction. An exact 4/5 ratio rounds to the same double as the literal `0.8`, so the integer form is also the double comparison for a bank of this size.
- **Environment as parameters.** Clock readings, generated ids and the outcome of each remote call are parameters:
  - `SubmitClock` and the scorer's `startedAt`/`completedAt` carry the clock readings and ids.
  - `callFails` says whether grading succeeded.
  - `ExplainOutcome` is the outcome of the explanation call.
  - `Remote` is the outcome of the sign-in and the database upserts.
- **Grading in two halves.** `handleQuizComplete` awaits the scorer, so other events can come in between its start and its end. The model splits it into `BeginGrading` and a finish. `FinishGrading` is the finish as written, and `FinishGradingIntended` is the corrected one that `HandleQuizComplete` uses (see "## Findings"). `Valid` is what every state reachable as written keeps. `Coherent` adds that the result view has its user, and the intended operations keep it.
- **Key order.** `Object.keys` order is the parameter `keys`, which is required to list every key of the flag map exactly once.
- **`atob`.** It is modelled as the browser's forgiving base64 decode. On every encoding produced by section 4 of RFC 4648 it is the inverse of the encoder (`GeminiService.AtobBase64Encode`). It also skips ASCII white space and accepts missing padding, as browsers do. For everything else it fails (`None`) where the browser throws.
- **Binary strings.** The encode string has one character per byte. Storing a character into a `Uint8Array` keeps its code modulo 256.

## Model

| member | source | states |
|---|---|---|
| Types.CountBadgeZero | App.tsx:38 | no badge carries a key exactly when the count of badges with that key is zero, the link between the `some` test and "exactly one badge" |
| Types.TopicNameInjective | types.ts:13-19 | distinct topics have distinct string values, so a `misses` list serialized as strings loses nothing |
| Constants.QuizQuestionsIdsDistinct | constants.ts:44-92 | the bank has five questions and no two share an id |
| Constants.QuizQuestionsCorrectOptionOwned | constants.ts:53-101 | each question's correct option id is the id of one of its own options |
| Constants.QuizQuestionsFourOptions | constants.ts:47-100 | every question has exactly four options |
| Constants.QuizQuestionsOptionIdShape | constants.ts:47-100 | option k of question i has a four-character id with digit i+1 in position 1 and digit k+1 in position 3 |
| Constants.QuizQuestionsOptionIdsDistinct | constants.ts:47-100 | option ids are distinct within each question and no option id of one question belongs to another |
| Constants.QuizQuestionsTopicOrder | constants.ts:45-93 | question i is about the i-th topic in declaration order |
| Constants.TopicOrderOnePerTopic | constants.ts:45-93 | any bank whose questions follow the topic list one by one holds each topic exactly once |
| Constants.QuizQuestionsOnePerTopic | constants.ts:45-93 | each of the five topics is held by exactly one question of the bank |
| Constants.QuizQuestionsWellFormed | constants.ts:42-103 | the bank meets all of the above: unique ids, owned correct options, distinct option ids, one question per topic |
| Constants.MockUsersWellFormed | constants.ts:5-40 | every mock user is stored under its own id and repeats no badge key; Maria is a learner without FoundationVerified, Jamal a mentor with it |
| MockApi.ScoredSet | services/mockApi.ts:20-22 | the scored questions are bank questions whose id was answered, and every such question is scored; never more than the bank |
| MockApi.CorrectCount | services/mockApi.ts:37-43 | the score never exceeds the number of scored questions |
| MockApi.MissedTopics | services/mockApi.ts:37-43 | at most one missed topic per scored question |
| MockApi.IsCorrect | services/mockApi.ts:38 | an answer is correct only when it is the question's correct option, so on a question that owns its correct option a correct answer is one of that question's options |
| MockApi.Passes | services/mockApi.ts:46-47 | for n > 0 the quiz passes iff no more than a fifth of the n scored questions are missed |
| MockApi.CompleteQuiz | services/mockApi.ts:8-57 | the loop's score and misses are those of the scored set; passed iff 5·score ≥ 4·n with n > 0; an empty scored set gives score 0, not passed, no misses; id, user and times are the given ones |
| MockApi.ScoredSetAppend | services/mockApi.ts:22 | the scored set of a concatenation is the concatenation of the scored sets, so bank order is kept |
| MockApi.ScoredSetSingleton | services/mockApi.ts:22 | a one-question bank is scored exactly when that question's id was answered |
| MockApi.ScoredSetIgnoresForeignKeys | services/mockApi.ts:20-22 | an answer under a key that is no bank question's id leaves the scored set unchanged |
| MockApi.ScoredSetEmptyAnswers | services/mockApi.ts:20-25 | no answers give an empty scored set, which is the early-return branch |
| MockApi.ScorePlusMisses | services/mockApi.ts:37-43 | score plus the number of misses equals the number of scored questions |
| MockApi.MissesFromIncorrect | services/mockApi.ts:40-42 | every miss is the topic of a scored question that was not answered correctly |
| MockApi.IncorrectInMisses | services/mockApi.ts:38-42 | every scored question not answered correctly contributes its topic to the misses |
| MockApi.AllCorrectNoMisses | services/mockApi.ts:37-43 | a full score, no misses and every scored question correct are the same condition |
| MockApi.PassesIsEightyPercent | services/mockApi.ts:46-47 | for n > 0 the integer threshold holds iff score / n ≥ 0.8 over the reals |
| MockApi.ThresholdBoundary | services/mockApi.ts:46-47 | out of five, four correct pass and three fail; a score s of 0..5 passes iff s ≥ 4 |
| MockApi.ForeignOptionIsMiss | services/mockApi.ts:38 | on a well-formed bank, answering a question with another question's option is never correct |
| MockApi.GradeIgnoresForeignKeys | services/mockApi.ts:37-43 | an extra key that is no scored question's id changes neither score nor misses |
| MockApi.ScoreAtMostBank | services/mockApi.ts:37-43 | the score never exceeds the bank size, at most 5 for the shipped bank |
| MockApi.ScoredSetAllAnswered | services/mockApi.ts:20-22 | when every bank question was answered, the whole bank is scored in bank order |
| MockApi.AllButSafetyCorrectness | constants.ts:43-102 | the all-but-safety answer map answers all five questions, the first four correctly and the safety question wrongly |
| MockApi.AllButSafetyCounts | services/mockApi.ts:37-43 | on the whole bank that answer map scores 4 with the single miss Safety |
| MockApi.ScenarioAllButSafety | services/mockApi.ts:37-47 | all five answered, all but q5 right: the whole bank is scored, score 4, pass, misses exactly ["Job Site Safety"] |
| MockApi.ScoredSecondAndFourth | services/mockApi.ts:22 | in a five-question bank where only the second and fourth ids were answered, exactly those two are scored, in order |
| MockApi.TwoCorrect | services/mockApi.ts:37-43 | two correctly answered questions score 2 with no misses |
| MockApi.ScenarioTwoAnswered | services/mockApi.ts:20-47 | only q2 and q4 answered, both right: the scored set is those two, score 2, pass (2 of 2), no misses |
| AppView.MergeBadge | App.tsx:35-42 | the old badges are a prefix of the new; one badge is added iff the quiz passed and no FoundationVerified is held; the added badge is FoundationVerified with the pass evidence; no other user field changes |
| AppView.MergeHasBadge | App.tsx:38-39 | after the merge the user holds FoundationVerified iff they held it before or the quiz passed; every other key is held iff it was held before |
| AppView.MergeIdempotent | App.tsx:38-39 | merging the same result a second time, at any time, changes nothing |
| AppView.MergeKeepsKeysUnique | App.tsx:38-39 | a badge list without repeated keys keeps that property through the merge |
| AppView.MergeTwiceOneBadge | App.tsx:38-39 | a user without FoundationVerified who passes, merged twice, holds exactly one FoundationVerified badge |
| AppView.AppState.constructor | App.tsx:15-18 | no user, no result, the user-selection view, not loading; the state is coherent (the result view, when selected, has its user) |
| AppView.AppState.Screen | App.tsx:61-86 | a spinner exactly while loading; the blank fall-through exactly when the result view is selected with no user, so never in a coherent state; otherwise the result view shows the stored result and user |
| AppView.AppState.HandleUserSelect | App.tsx:20-27 | the user is stored; a mentor goes to the dashboard, anyone else to the quiz; result and loading unchanged; the state is coherent |
| AppView.AppState.BeginGrading | App.tsx:29-31 | without a user nothing happens; otherwise loading starts and the user's id is captured for the grading call; nothing else changes |
| AppView.AppState.FinishGrading | App.tsx:32-48 | as written: a failed call only ends loading; a success stores the graded result (the clock's id and times, the captured user, the scorer's score, misses and verdict), merges the badge into whoever is the user now (nobody stays nobody) and selects the result view |
| AppView.AppState.FinishGradingIntended | App.tsx:32-48 | as FinishGrading, except that a result arriving after the user was switched away is dropped; it keeps a coherent state coherent |
| AppView.AppState.HandleQuizComplete | App.tsx:29-49 | with nothing happening during the call: no user, nothing changes; a failed call: user, result and view unchanged; success: the graded result with the clock's id and times is stored, the merge applied to the user, the result view shown; loading is off afterwards |
| AppView.AppState.HandleNavigateToDashboard | App.tsx:51-53 | from a rendered result screen, the dashboard view, with user, result and loading unchanged; the state is coherent |
| AppView.AppState.HandleReset | App.tsx:55-59 | user and result cleared, back to user selection; loading untouched, so a reset during grading keeps the spinner |
| AppView.ScenarioResetDuringGrading | App.tsx:29-80 | Maria submits, the user is switched during the call, the call succeeds: the shell renders nothing |
| AppView.ScenarioResetDuringGradingIntended | App.tsx:29-76 | the same interleaving with the intended finish ends on the user picker |
| QuizView.TopicFilter | components/QuizView.tsx:53 | the filtered questions are exactly the bank questions with that topic |
| QuizView.QuestionsFor | components/QuizView.tsx:53 | 'All' loads the whole bank; a topic loads exactly the bank questions with that topic |
| QuizView.TopicFilterAppend | components/QuizView.tsx:53 | filtering distributes over concatenation, so bank order is kept |
| QuizView.TopicCountsPartitionBank | components/QuizView.tsx:12-43 | the five per-topic filter lengths add up to the bank size, for any bank |
| QuizView.TopicFilterUniqueIds | components/QuizView.tsx:53 | a topic's questions have unique ids when the bank's have |
| QuizView.CardNamesDistinct | components/QuizView.tsx:12-43 | the six topic cards carry six different names |
| QuizView.DetailCounts | components/QuizView.tsx:12-43 | the 'All' card shows 5, the per-topic counts add up to it, and each topic card shows 1 |
| QuizView.TopicFilterNone | components/QuizView.tsx:53 | a bank with no question on a topic filters to nothing |
| QuizView.TopicFilterSingle | components/QuizView.tsx:53 | a bank with exactly one question on a topic filters to that question alone |
| QuizView.ShippedTopicFilter | components/QuizView.tsx:53 | on the shipped bank each topic loads exactly its one question |
| QuizView.TopicIndex | constants.ts:45-93 | the position of each topic's question in the shipped bank |
| QuizView.ScenarioSafetyTopic | components/QuizView.tsx:53 | choosing Safety loads only q5 |
| QuizView.AnswerOfQuestionFits | components/QuizView.tsx:148 | recording one of a listed question's options keeps every answer an option of a listed question |
| QuizView.Ids | components/QuizView.tsx:117 | the id set contains exactly the ids of the listed questions |
| QuizView.IdsCardinality | components/QuizView.tsx:117 | with unique ids there are as many ids as questions |
| QuizView.SubmitCountMeansAllAnswered | components/QuizView.tsx:117-171 | with unique ids and answers only for listed questions, "at least as many answer keys as questions" holds iff every question is answered |
| QuizView.ScoredSetIsTopicFilter | services/mockApi.ts:22 | when the answered ids are exactly one topic's questions, the scorer scores exactly that topic's filter |
| QuizView.SubmittedQuizIsScoredSet | components/QuizView.tsx:73-75 | a fully answered session hands the scorer answers whose scored set is exactly the loaded question list |
| QuizView.QuizSession.constructor | components/QuizView.tsx:46-49 | no topic, no questions, no answers, cursor 0 |
| QuizView.QuizSession.CurrentQuestion | components/QuizView.tsx:116 | a question is shown iff a topic is chosen and has questions; it is the one under the cursor, a bank question, and about the chosen topic when one topic was chosen |
| QuizView.QuizSession.ShowsNoQuestions | components/QuizView.tsx:99-114 | on the shipped bank the "No Questions Available" screen never shows in a valid session |
| QuizView.QuizSession.NextShown | components/QuizView.tsx:160 | Next is shown only with at least two questions loaded, and then a question follows the one under the cursor |
| QuizView.QuizSession.SubmitShown | components/QuizView.tsx:160-176 | once a topic is chosen exactly one of the empty screen, Next and Submit shows; Submit only on the last question |
| QuizView.QuizSession.NextEnabled | components/QuizView.tsx:160-163 | Next is enabled only when it is shown (not on the last question) and the question on screen has an answer |
| QuizView.QuizSession.SubmitEnabled | components/QuizView.tsx:168-171 | Submit is enabled iff it is shown (on the last question) and every loaded question is answered |
| QuizView.QuizSession.HandleTopicSelect | components/QuizView.tsx:51-56 | the chosen topic's questions are loaded, answers cleared, cursor at 0 |
| QuizView.QuizSession.HandleResetTopic | components/QuizView.tsx:58-61 | topic and question list cleared, answers and cursor kept |
| QuizView.QuizSession.HandleOptionSelect | components/QuizView.tsx:63-65 | the question's entry is set to the option, overwriting any earlier one; every other entry is unchanged |
| QuizView.QuizSession.ChooseDisplayedOption | components/QuizView.tsx:141-148 | choosing an option on screen records it for the question on screen and keeps every answer an option of a loaded question |
| QuizView.QuizSession.HandleNext | components/QuizView.tsx:67-71 | the cursor advances by one unless on the last question, and stays in range |
| QuizView.QuizSession.HandleSubmit | components/QuizView.tsx:73-75 | the recorded answers are handed over, and the scorer scores exactly the loaded questions |
| QuizView.SessionIdsUnique | components/QuizView.tsx:53 | whatever topic is chosen, the loaded questions have unique ids |
| ClauseInvestigator.Split | components/ClauseInvestigator.tsx:10 | a split has at least one piece and no piece contains the separator |
| ClauseInvestigator.SplitJoin | components/ClauseInvestigator.tsx:10 | joining the pieces with the separator gives back the text |
| ClauseInvestigator.SplitCount | components/ClauseInvestigator.tsx:10 | there is one piece per separator, plus one |
| ClauseInvestigator.SplitAppend | components/ClauseInvestigator.tsx:10 | splitting two texts joined by a separator splits each text on its own |
| ClauseInvestigator.SplitNoSeparator | components/ClauseInvestigator.tsx:10 | a text without the separator is a single piece |
| ClauseInvestigator.OccurrencesZero | components/ClauseInvestigator.tsx:10 | a character absent from a text occurs zero times |
| ClauseInvestigator.StartsWithPrefix | components/ClauseInvestigator.tsx:11 | a text starts with p iff it is p followed by the rest of it, and p followed by anything starts with p |
| ClauseInvestigator.RemoveAll | components/ClauseInvestigator.tsx:12 | removing a pattern never lengthens the text |
| ClauseInvestigator.RemoveAllKeepsPrefix | components/ClauseInvestigator.tsx:12 | a front part without the pattern's first character is kept as it is |
| ClauseInvestigator.RemoveDoubleStarComplete | components/ClauseInvestigator.tsx:12 | after every "**" is removed, no two adjacent asterisks remain |
| ClauseInvestigator.TrimStart | components/ClauseInvestigator.tsx:14 | the result is a suffix of the text that does not start with white space, and everything dropped in front of it is white space |
| ClauseInvestigator.TrimEnd | components/ClauseInvestigator.tsx:14 | the result is a prefix of the text that does not end with white space, and everything dropped behind it is white space |
| ClauseInvestigator.TrimEndOfTrimStart | components/ClauseInvestigator.tsx:14 | trimming the end after the front leaves a prefix of the text from where the front trim stopped, which neither starts nor ends with white space |
| ClauseInvestigator.TrimDropsOnlyBlank | components/ClauseInvestigator.tsx:14 | the two trims keep one contiguous piece of the text and drop only white space before and after it |
| ClauseInvestigator.BlankAroundPieces | components/ClauseInvestigator.tsx:14 | cutting a blank front and then a blank back off a text leaves a piece with only white space around it |
| ClauseInvestigator.Trim | components/ClauseInvestigator.tsx:14 | the trimmed line is the piece of the line left once exactly its leading and trailing white space is removed: all that is dropped is white space, and what is kept neither starts nor ends with it |
| ClauseInvestigator.BlankEverywhere | components/ClauseInvestigator.tsx:14 | a text counts as blank exactly when every character is white space |
| ClauseInvestigator.BlankAppend | components/ClauseInvestigator.tsx:14 | two texts joined are blank exactly when both are |
| ClauseInvestigator.TrimEmptyIffBlank | components/ClauseInvestigator.tsx:14 | a line trims to the empty string iff every character is white space |
| ClauseInvestigator.TrimStartEmptyIffBlank | components/ClauseInvestigator.tsx:14 | trimming the front gives the empty string iff the text is all white space |
| ClauseInvestigator.TrimEndNonEmpty | components/ClauseInvestigator.tsx:14 | a text starting with a non-space character does not trim to nothing |
| ClauseInvestigator.Classify | components/ClauseInvestigator.tsx:11-17 | a line is a heading iff it starts with "### **"; a break iff it does not and is all white space; otherwise a paragraph carrying the line unchanged; a heading's text has no "**" and is shorter than the line by at least the marker |
| ClauseInvestigator.Parse | components/ClauseInvestigator.tsx:10-18 | one element per '\n'-separated line, in order, each the classification of its line |
| ClauseInvestigator.ParseAppend | components/ClauseInvestigator.tsx:10 | rendering two texts joined by a line break renders each on its own |
| ClauseInvestigator.HeadingLine | components/ClauseInvestigator.tsx:11-12 | "### **title**" renders as a heading with exactly that title when the title holds no '*' or '#' |
| ClauseInvestigator.ResponseText | components/ClauseInvestigator.tsx:42 | the filled template is never empty |
| ClauseInvestigator.ParseEmptyLine | components/ClauseInvestigator.tsx:14-15 | an empty line renders as one line break |
| ClauseInvestigator.ParseBlankLine | components/ClauseInvestigator.tsx:14-15 | an empty line between two texts renders as one break between them |
| ClauseInvestigator.ParseHeadingLine | components/ClauseInvestigator.tsx:10-12 | a one-line "### **title**" text renders as the single heading `title` |
| ClauseInvestigator.TemplateLine1 | components/ClauseInvestigator.tsx:42 | the first template line renders as the heading "1. The Code, Simplified" |
| ClauseInvestigator.TemplateLine2 | components/ClauseInvestigator.tsx:42 | the second template line renders as the heading "2. Practical Application" |
| ClauseInvestigator.TemplateLine3 | components/ClauseInvestigator.tsx:42 | the third template line renders as the heading "3. Key Takeaway" |
| ClauseInvestigator.ParseResponseText | components/ClauseInvestigator.tsx:42 | the rendered template is heading 1, the simplified lines, a break, heading 2, the practical lines, a break, heading 3, the takeaway lines |
| ClauseInvestigator.Headings | components/ClauseInvestigator.tsx:11-12 | at most one heading text per element |
| ClauseInvestigator.HeadingsAppend | components/ClauseInvestigator.tsx:10 | the headings of two concatenated renderings are the two heading lists in order |
| ClauseInvestigator.HeadingsNone | components/ClauseInvestigator.tsx:11 | a rendering with no heading element has no headings |
| ClauseInvestigator.ResponseHeadings | components/ClauseInvestigator.tsx:42 | when no field line starts with "### **", the rendered explanation's headings are exactly the three titles, in order |
| ClauseInvestigator.FieldHasNoHeadings | components/ClauseInvestigator.tsx:11 | a field with no marker line renders with no headings |
| ClauseInvestigator.SectionHeadings | components/ClauseInvestigator.tsx:42 | three titled sections whose bodies have no headings yield exactly the three titles |
| ClauseInvestigator.Investigator.constructor | components/ClauseInvestigator.tsx:24-27 | empty query, response and error, not loading |
| ClauseInvestigator.Investigator.SetQuery | components/ClauseInvestigator.tsx:66 | only the query changes |
| ClauseInvestigator.Investigator.BeginQuery | components/ClauseInvestigator.tsx:36-39 | an empty query does nothing; otherwise loading starts and error and response are cleared |
| ClauseInvestigator.Investigator.FinishQuery | components/ClauseInvestigator.tsx:41-47 | an explanation becomes the filled template; a failure's message, or the unknown-error text, becomes the error; loading ends either way |
| ClauseInvestigator.Investigator.HandleQuery | components/ClauseInvestigator.tsx:35-48 | an empty query changes nothing; otherwise loading ends, success shows the template with no error, failure shows the error with an empty response |
| ClauseInvestigator.Investigator.HandleSubmit | components/ClauseInvestigator.tsx:50-53 | asks about the typed query, with the same outcomes as the query handler; after a non-empty query the Explain button is enabled again |
| ClauseInvestigator.ScenarioOverlappingExamples | components/ClauseInvestigator.tsx:35-82 | two example buttons pressed one after the other, with the answers arriving in reverse order: the first answer to arrive ends loading while the other call is pending, and the last to arrive is shown, although the query box holds the other example |
| ClauseInvestigator.Investigator.AskExample | components/ClauseInvestigator.tsx:29-86 | an example button fills in its query and asks about it, with the same outcomes; afterwards the Explain button, enabled when nothing loads and the query is non-empty, is enabled |
| SkillsSelection.ToggleFlags | src/components/onboarding/SkillsSelection.tsx:20-22 | the toggled skill's reading is flipped (a missing flag reads false), it gains an entry, and every other entry is unchanged |
| SkillsSelection.ToggleOnlyFlips | src/components/onboarding/SkillsSelection.tsx:20-22 | toggling one skill leaves the reading of every other skill as it was |
| SkillsSelection.ToggleTwice | src/components/onboarding/SkillsSelection.tsx:20-22 | toggling twice restores every skill's reading, and the map itself when the skill had an entry |
| SkillsSelection.Chosen | src/components/onboarding/SkillsSelection.tsx:26 | the chosen skills are exactly the enumerated keys whose flag is set |
| SkillsSelection.ChosenDistinct | src/components/onboarding/SkillsSelection.tsx:26 | keys without repeats give chosen skills without repeats |
| SkillsSelection.ChosenIsChosenSet | src/components/onboarding/SkillsSelection.tsx:26 | over an enumeration of the map's keys, the chosen list holds exactly the skills whose flag is true |
| SkillsSelection.Restore | src/components/onboarding/SkillsSelection.tsx:14-15 | the restored map has an entry exactly for each listed skill, and every entry is true |
| SkillsSelection.RestoreIsListed | src/components/onboarding/SkillsSelection.tsx:14-15 | restoring gives the map from the listed skills to true, and its chosen set is the listed skills |
| SkillsSelection.RestoreChosen | src/components/onboarding/SkillsSelection.tsx:15-27 | restoring the cached chosen list gives every skill the reading it had before |
| SkillsSelection.SkillRows | src/components/onboarding/SkillsSelection.tsx:60 | one row per chosen skill, in the same order, each carrying the user's id |
| SkillsSelection.ProfileText | src/components/onboarding/SkillsSelection.tsx:38 | the profile text is never empty: the stored profile when non-empty, else "{}" |
| SkillsSelection.SkillsPage.constructor | src/components/onboarding/SkillsSelection.tsx:7-18 | a cached list is restored into the flags, otherwise there are none; the fixed six skills are shown |
| SkillsSelection.SkillsPage.Toggle | src/components/onboarding/SkillsSelection.tsx:20-22 | the flags become the toggled flags and nothing else changes |
| SkillsSelection.SkillsPage.Finish | src/components/onboarding/SkillsSelection.tsx:24-73 | the chosen list is always cached; no user: nothing written, go to /login; a profile `JSON.parse` rejects: nothing written, no navigation, saving stays on; failed user upsert: only the user row written, no navigation; otherwise the user row (status "completed") and then the skill rows are written and the page goes to /onboarding/complete; saving ends except after the parse failure |
| GeminiService.BytesToBinary | services/geminiService.ts:55-60 | one character per byte, each with the byte's code, so the string is binary |
| GeminiService.BinaryToBytes | services/geminiService.ts:27-31 | one byte per character, each the character's code modulo 256 |
| GeminiService.BinaryRoundTrip | services/geminiService.ts:25-60 | storing the characters of a byte array's binary string gives the bytes back |
| GeminiService.BinaryStringRoundTrip | services/geminiService.ts:25-60 | a binary string goes through its bytes unchanged |
| GeminiService.AlphabetChar | services/geminiService.ts:61 | each 6-bit value maps to a character of the base64 alphabet (section 4 of RFC 4648) |
| GeminiService.AlphabetValue | services/geminiService.ts:26 | a character has a value iff it is in the alphabet, and the value maps back to that character |
| GeminiService.AlphabetRoundTrip | services/geminiService.ts:26-61 | every 6-bit value reads back from its character |
| GeminiService.EncodeGroup | services/geminiService.ts:61 | 24 bits give four 6-bit values |
| GeminiService.Sextets | services/geminiService.ts:61 | n bytes give 4·⌊n/3⌋ values plus n mod 3 + 1 for a partial final group |
| GeminiService.Chars | services/geminiService.ts:61 | one alphabet character per 6-bit value, each reading back as its value |
| GeminiService.Padding | services/geminiService.ts:61 | enough '=' to fill the last quantum to four characters |
| GeminiService.Base64Encode | services/geminiService.ts:61 | the encoding has 4·⌈n/3⌉ characters, all in the alphabet or '=', and '=' only in the last two positions |
| GeminiService.Btoa | services/geminiService.ts:61 | it succeeds iff every character code is below 256; then the text is the base64 encoding of those bytes, has 4·⌈n/3⌉ characters, and atob gives the input back |
| GeminiService.StripWhitespace | services/geminiService.ts:26 | the result holds no ASCII white space and is no longer than the input |
| GeminiService.StripWhitespaceAppend | services/geminiService.ts:26 | stripping two joined texts is stripping each and joining the results |
| GeminiService.StripWhitespaceChar | services/geminiService.ts:26 | a single white-space character is dropped and any other character is kept |
| GeminiService.StripPadding | services/geminiService.ts:26 | at most two trailing characters are dropped, and what remains is a prefix |
| GeminiService.Values | services/geminiService.ts:26 | the values exist iff every character is in the alphabet, and they map back to the text |
| GeminiService.DecodeGroup | services/geminiService.ts:26 | four 6-bit values give three bytes |
| GeminiService.DecodeSextets | services/geminiService.ts:26 | three bytes per full group of four values, and one byte fewer than its values for a partial final group |
| GeminiService.Atob | services/geminiService.ts:26 | a successful decode is a binary string |
| GeminiService.GroupRoundTrip | services/geminiService.ts:26-61 | three bytes read back from their four values, and one or two bytes read back from the first two or three values |
| GeminiService.DecodeEncodeSextets | services/geminiService.ts:26-61 | the 6-bit values of any byte sequence decode back to it |
| GeminiService.DecodeEncodeGroupStep | services/geminiService.ts:26-61 | a leading group of three bytes decodes back ahead of the rest |
| GeminiService.DecodeFourFirst | services/geminiService.ts:26 | four leading values decode as one group ahead of the rest |
| GeminiService.StripWhitespaceNone | services/geminiService.ts:26 | text without white space is left unchanged |
| GeminiService.StripPaddingOfEncoding | services/geminiService.ts:26-61 | removing the padding of an encoding leaves exactly its alphabet characters |
| GeminiService.NoPaddingKept | services/geminiService.ts:26 | an unpadded quantum-aligned text keeps all its characters |
| GeminiService.TwoPaddingDropped | services/geminiService.ts:26 | a quantum-aligned text ending in "==" loses exactly the two '=' |
| GeminiService.OnePaddingDropped | services/geminiService.ts:26 | a quantum-aligned text ending in one '=' after an alphabet character loses exactly that '=' |
| GeminiService.AtobBase64Encode | services/geminiService.ts:26-61 | decoding the base64 encoding of bytes gives back their binary string |
| GeminiService.DecodeEncode | services/geminiService.ts:25-62 | btoa succeeds on the binary string of any bytes, atob succeeds on the result, and storing its characters gives the bytes back: decode(encode(b)) == b |
| GeminiService.RfcTestVectorsShort | services/geminiService.ts:61 | the encodings of "" and "f" are those of section 10 of RFC 4648 |
| GeminiService.RfcTestVectorFo | services/geminiService.ts:61 | the encoding of "fo" is that of section 10 of RFC 4648 |
| GeminiService.RfcTestVectorFoo | services/geminiService.ts:61 | the encoding of "foo" is that of section 10 of RFC 4648 |
| GeminiService.RfcTestVectorFoob | services/geminiService.ts:61 | the encoding of "foob" is that of section 10 of RFC 4648 |
| GeminiService.ValuesZg | services/geminiService.ts:26 | "Zg" reads as the values 25 and 32 |
| GeminiService.DecodeZg | services/geminiService.ts:26 | the values 25, 32 decode to the byte of "f" |
| GeminiService.AtobPadding | services/geminiService.ts:26 | "Zg==" and "Zg" both decode to "f" |
| GeminiService.StripWhitespaceExample | services/geminiService.ts:26 | white space is removed wherever it occurs |
| GeminiService.AtobSkipsWhitespace | services/geminiService.ts:26 | two inputs that agree once white space is removed decode the same |
| GeminiService.AtobWhitespace | services/geminiService.ts:26 | a padded input with interspersed white space still decodes to "f" |
| GeminiService.AtobFailures | services/geminiService.ts:26 | a lone '=' that is not valid padding, and a final group of one character, make atob fail |
| GeminiService.Encode | services/geminiService.ts:55-62 | the loop's string is the binary string of the array, and the result is its base64 encoding |
| GeminiService.Decode | services/geminiService.ts:25-33 | fails exactly when atob fails; otherwise a fresh array holding one byte per decoded character |
| GeminiService.GroundedSearchTools | services/geminiService.ts:197-205 | search comes first, maps is in the list iff requested, no tool twice; a retrieval position is set iff maps is requested and a location given, and it is that location |

## Left out

- Time and identity: the 1500 ms delay, `new Date()` readings, the five-minute start offset and the `quiz_<ms>` ids are parameters of the model rather than computed.
- `console.log`/`console.error` and all rendering markup (icons, class names, the progress bar).
- The quiz progress percentage (components/QuizView.tsx:118): floating point, display only.
- MockApi.CompleteQuiz: the pass test is exact rational arithmetic rather than IEEE division; for a few questions, as here, the two agree.
- AppView.AppState.HandleQuizComplete: it is the run with nothing happening during the grading call. Interleavings are modelled by its two halves, BeginGrading and FinishGrading; while the spinner shows, Switch User is the only control left, so only a reset can come in between.
- ClauseInvestigator.Investigator.HandleQuery: it is the run with nothing happening during the explanation call. The example buttons and the text area stay enabled while loading, so a second query can start before the first answers. Such overlaps are modelled by its two halves, BeginQuery and FinishQuery; ScenarioOverlappingExamples shows that the first answer to arrive ends loading early and that the last answer wins, whichever query it belongs to.
- GeminiService.StripWhitespace: its own contract states only the shape of the result; which characters it keeps, in order, is fixed by StripWhitespaceAppend and StripWhitespaceChar.
- AppView.AppState.Screen: the `currentUser &&` guards of the quiz and dashboard views (App.tsx:78, App.tsx:82) always hold under `Valid`, so those two views never render blank in the model.
- AppView.AppState.Screen: the user list is the two mock users in source order; JavaScript's ordering of `Object.values` is taken to be insertion order.
- QuizView.QuizSession.NextEnabled: only states that an enabled Next implies an answer on screen; the converse is what the definition computes.
- The remote calls: `completeQuiz`'s failure, `explainClause`, the sign-in and both database upserts become outcome parameters (`callFails`, `ExplainOutcome`, `Remote`).
- The zod response validation, `fileToGenerativePart` (a FileReader callback) and `decodeAudioData` (floating point) are not part of this model. The same holds for every other hosted-model wrapper of the AI service and for the AI tools page.
- How `groundedSearch` sends its tool config to the client library, and what it does with the response, are foreign calls.
- `JSON.parse`/`JSON.stringify` on the session cache are taken as a faithful round trip of a list of strings. A malformed cache, which would throw, is not represented; an empty cache entry is modelled as none.
- The skills-upsert error is only logged in the source, so the model records the write and moves on either way.
- SkillsSelection.SkillsPage.Finish: whether `JSON.parse` accepts the stored profile text is the parameter `profileParses`; the parse itself is not modelled, so the upserted `profile` column is the profile text and not the parsed object. A rejected profile throws after the cache write, leaving saving on, as the contract states.
- SkillsSelection.SkillsPage.Finish: `Object.keys` order is a parameter required to enumerate the flags; JavaScript's order for integer-like keys is not modelled.
- The onboarding status written elsewhere in the repository (a separate API handler) is not part of this model; this page writes "completed".
- String handling uses a fixed white-space set for `trim` and literal-substring removal for the two regular-expression replaces. There is no Unicode normalisation.

## Findings

| source | as written | input that shows it | evidently intended | confidence | as-written member | corrected member |
|---|---|---|---|---|---|---|
| App.tsx:29-49 | when `completeQuiz` resolves after the user was switched away, the result is stored and the result view selected while `currentUser` is null, so App.tsx:80 renders nothing, and with no user the header offers no Switch User button to leave | a learner submits a quiz and presses Switch User (components/Header.tsx:24-29) during the grading delay | a result whose user is gone is dropped and the user picker stays | medium, not executed | AppView.ScenarioResetDuringGrading | AppView.AppState.FinishGradingIntended |
