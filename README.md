# NihongoLab core, modelled in Dafny

NihongoLab is a Japanese-learning web application. Learners answer multiple-choice quiz
questions grouped by JLPT level. Correct answers earn experience points, and experience moves
the learner up through an ordered list of levels. The backend keeps:

- one progress row per learner and question, with the number of attempts and whether the
  question has ever been answered correctly;
- a stats row per learner, with answer counters, a daily streak and the last active day.

It serves a dashboard of those figures, a cursor-paginated and category-grouped vocabulary
list, and a seed script that fills the question bank from a dictionary API.

This project models the core of that backend:

- the user repository's lookups, profile update and experience award with its level-up loop;
- the progress repository's upsert of an attempt;
- answer submission and lesson completion;
- the dashboard aggregations;
- the vocabulary page;
- the seed script's shuffle, level upsert and question building.

The database is a `Database` class whose fields are the tables: users, levels, questions,
progress rows and stats rows. Each repository or service call is a method that changes those
fields. What a call computes is specified by pure functions (the level-up arithmetic, the upsert
row, the stats rows, the page and its grouping). The properties are proved about those
functions:

- experience is conserved by the level-up loop;
- settling is idempotent, and more experience never gives a lower level;
- a question earns experience at most once;
- the streak grows by one per consecutive day;
- the rounded percentages stay within bounds;
- the next page's cursor continues exactly where the page stopped;
- grouping by category loses and duplicates nothing;
- every seeded question has exactly one correct option among four.

Modules, one per source file (plus two shared ones):

| module | file | models |
|---|---|---|
| `Common` | common.dfy | `Option`, `ORDER BY` as an insertion sort, filtering, distinct keys |
| `Schema` | schema.dfy | the rows of the tables, the `Database` class and its invariant |
| `Leveling` | leveling.dfy | the arithmetic of the level-up loop of `addExp` |
| `UserRepository` | user_repository.dfy | `UserRepositoryImpl` |
| `ProgressRepository` | progress_repository.dfy | `ProgressRepositoryImpl.recordAttempt` |
| `LearningService` | learning_service.dfy | `submitAnswer` (TypeScript service) and `completeLesson` (JavaScript service) |
| `DashboardService` | dashboard_service.dfy | `DashboardService` |
| `VocabularyService` | vocabulary_service.dfy | `getVocabularyPaginated` |
| `Seed` | seed.dfy | the seed script |

Three facts about the code that the model keeps:

- No spaced-repetition scheduler exists. The comment on the attempts column at
  packages/db/src/schema.ts:114 only anticipates one. "Needs review" is only the dashboard's
  count of rows with several attempts or no correct answer.
- `completeLesson` accepts any list of question ids, including an empty one, whose accuracy is 0.
- All three branches of the experience rule at apps/api/src/service/learningService.js:98-102
  give 1, so a lesson always earns one point.

## Model

| member | source | states |
|---|---|---|
| Leveling.ByRequiredExp | packages/db/src/repository/userRepositoryImpl.ts:67-69 | the levels as `addExp` reads them: a permutation of the table in ascending order of required experience |
| Leveling.FindIndex | packages/db/src/repository/userRepositoryImpl.ts:76-78 | the first position holding the user's level id, or -1 exactly when no position holds it |
| Leveling.StartIndex | packages/db/src/repository/userRepositoryImpl.ts:76-81 | the loop starts at the user's current level when it is in the list, and at the first level otherwise |
| Leveling.Climb | packages/db/src/repository/userRepositoryImpl.ts:84-90 | the loop only moves up and stays in the list; every level it passes had its threshold covered by the experience left at that point; the remaining experience plus the thresholds paid equals the experience it started with; the remainder is never negative once a level was passed, and untouched when none was; it stops below the last level only when the remainder is under that level's threshold |
| Leveling.Settle | packages/db/src/repository/userRepositoryImpl.ts:75-97 | after the loop and the clamp, the final level is at or above the start and every level passed had its threshold covered; below the last level the experience is under the threshold, at the last level it is at most that threshold, and it is never negative when the starting experience is not |
| Leveling.SettleConserves | packages/db/src/repository/userRepositoryImpl.ts:75-95 | the experience before plus the gain equals the experience after plus the thresholds of every level passed; only at the last level is the excess over the threshold discarded |
| Leveling.ClimbMonotone | packages/db/src/repository/userRepositoryImpl.ts:84-90 | gaining more experience never ends at a lower level |
| Leveling.SettleIdempotent | packages/db/src/repository/userRepositoryImpl.ts:75-97 | running the level-up again with no gain on the state it produced changes nothing |
| UserRepository.Leveled | packages/db/src/repository/userRepositoryImpl.ts:97-108 | the updated row carries exactly the settled experience and level of `Settle`, the update day, and the user's unchanged id, name, email, verification flag and image |
| UserRepository.Create | packages/db/src/repository/userRepositoryImpl.ts:8-21 | succeeds exactly when neither the id nor the email is taken, and otherwise fails with a unique violation; a new user has zero experience and no level; other tables unchanged; the database invariant holds |
| UserRepository.FindById | packages/db/src/repository/userRepositoryImpl.ts:23-29 | returns the row exactly when a user has that id |
| UserRepository.FindByEmail | packages/db/src/repository/userRepositoryImpl.ts:31-37 | returns a row exactly when some user has that email, and the row returned is that user's |
| UserRepository.Patched | packages/db/src/repository/userRepositoryImpl.ts:43-52 | the name and image are taken from the update when it gives them and kept otherwise; the update day is set; id, email, verification flag, experience and level are unchanged; an empty update changes only the update day |
| UserRepository.Update | packages/db/src/repository/userRepositoryImpl.ts:39-54 | an empty update returns the row untouched; an unknown user gives null and changes nothing; otherwise only the given fields and the update day change |
| UserRepository.LevelUp | packages/db/src/repository/userRepositoryImpl.ts:75-97 | the imperative loop and clamp compute exactly `Settle` |
| UserRepository.SaveLeveled | packages/db/src/repository/userRepositoryImpl.ts:75-108 | writes back exactly the leveled row for the user (settled experience and level, same identity); every other user and every other table is unchanged and the database invariant holds |
| UserRepository.AddExp | packages/db/src/repository/userRepositoryImpl.ts:56-111 | unknown user fails with "User not found" and no levels fails with "No levels configured", each writing nothing; otherwise the user's row becomes the settled experience and level and nothing else changes |
| ProgressRepository.Upserted | packages/db/src/repository/progressRepositoryImpl.ts:16-39 | a new row has one attempt and the answer's correctness; an existing row gains one attempt; once correct, always correct; both timestamps are the current day |
| ProgressRepository.ReplayCountsAttempts | packages/db/src/repository/progressRepositoryImpl.ts:26-34 | after n attempts the row counts the earlier attempts plus n, and is correct exactly when it was correct before or any attempt was correct |
| ProgressRepository.RecordAttempt | packages/db/src/repository/progressRepositoryImpl.ts:8-43 | an unknown user or question violates the foreign key and writes nothing; otherwise exactly the row of (user, question) becomes `Upserted` of its previous value |
| LearningService.StatsAfterAnswer | apps/api/src/service/learningService.ts:70-89 | the stats row counts one more answer, and one more correct answer exactly when the answer is correct; a new row starts a streak of one and an existing streak is kept; the counters stay consistent |
| LearningService.StatsAfterLesson | apps/api/src/service/learningService.js:104-125 | the row becomes active today with the counters unchanged; a new row has a streak of one; an existing row's streak grows by one after yesterday, stays after today, and restarts at one after any other day |
| LearningService.NextStreak | apps/api/src/service/learningService.js:112-122 | one more than the streak when the row was last active yesterday, the same streak when it was active today, and 1 after any other day; never 0 when the streak was positive |
| LearningService.GapRestartsStreak | apps/api/src/service/learningService.js:104-125 | after a gap of more than a day, lessons on consecutive days bring the streak to the number of those days |
| LearningService.Accuracy | apps/api/src/service/learningService.js:97 | 0 for an empty lesson; otherwise accuracy times total is the correct count, and it lies between 0 and 1 |
| LearningService.LessonCorrectAtMostTotal | apps/api/src/service/learningService.js:85-97 | a lesson never counts more correct questions than it lists, so its accuracy is at most 1 |
| LearningService.FirstCorrectIsTransition | apps/api/src/service/learningService.ts:36-47 | an answer is a first-correct transition exactly when the progress row was missing or not correct before the upsert and is correct after it |
| LearningService.SecondCorrectIsNotFirst | apps/api/src/service/learningService.ts:36-47 | a second correct answer to a question is never a first-correct transition |
| LearningService.FirstCorrectAtMostOnce | apps/api/src/service/learningService.ts:41-57 | over any sequence of answers to a question, experience is awarded once if the row was not yet correct and some answer is correct, and never otherwise |
| LearningService.ConsecutiveLessonsExtendStreak | apps/api/src/service/learningService.js:104-125 | lessons on consecutive days after an active day extend the streak by one per day |
| LearningService.AnswerThenLessonKeepsStreak | apps/api/src/service/learningService.js:104-125 | an answer earlier on the same day marks the user active today, so a lesson afterwards leaves the streak as it was |
| LearningService.SubmitAnswer | apps/api/src/service/learningService.ts:21-102 | unknown question fails first; unknown user violates the foreign key; otherwise the attempt is recorded, one point is awarded exactly on a first-correct transition, the stats row counts the answer, and the response reports correctness, the correct answer, the points, the level change and the attempt count; a failure inside the transaction writes nothing |
| LearningService.LatestCorrectness | apps/api/src/service/learningService.js:82-90 | the map holds exactly the listed questions the user has a row for, each with that row's correctness |
| LearningService.CountCorrect | apps/api/src/service/learningService.js:92-96 | the count is the number of map entries that are true |
| LearningService.CompleteLesson | apps/api/src/service/learningService.js:80-135 | total is the number of listed questions and correct the number of them answered correctly; one point goes through `addExp` and its failures write nothing; the stats row follows the streak rule; progress rows are only read |
| LearningService.SubmitCorrectTwice | apps/api/src/service/learningService.ts:47-57 | answering a new question correctly twice earns one point, then none |
| DashboardService.RoundPercent | apps/api/src/service/dashboardService.ts:148 | `Math.round((part / whole) * 100)` on the exact ratio: within half a unit of the exact percentage, and at most 100 when the part is at most the whole |
| DashboardService.FullShareIsHundred | apps/api/src/service/dashboardService.ts:75-78 | the whole of a positive total rounds to exactly 100 |
| DashboardService.ReviewPartition | apps/api/src/service/dashboardService.ts:189-211 | each of the user's rows needs review or was correct at the first attempt, so needs-review plus first-try-correct is the row count; mastered and needs-review each stay within it and together cover it |
| DashboardService.QuestionsNeedingReviewAsWritten | apps/api/src/service/dashboardService.ts:198-211 | the needs-review query as written, with the OR outside the user filter |
| DashboardService.AsWrittenReviewCovers | apps/api/src/service/dashboardService.ts:198-211 | the query as written counts at least the intended rows, and exactly those when no other user has an incorrect row |
| DashboardService.AsWrittenReviewCountsOtherRow | apps/api/src/service/dashboardService.ts:198-211 | each incorrect row of another user adds one to the count as written |
| DashboardService.AsWrittenReviewCountsOtherUsers | apps/api/src/service/dashboardService.ts:198-211 | a user with no rows is reported one or more questions to review when another user has an incorrect row; the intended count is 0 |
| DashboardService.QuestionsMastered | apps/api/src/service/dashboardService.ts:189-196 | at most the user's row count, and 0 exactly when none of the user's rows is correct |
| DashboardService.QuestionsNeedingReview | apps/api/src/service/dashboardService.ts:198-211 | the intended count: at most the user's row count, and 0 exactly when each of the user's rows was answered correctly at the first attempt |
| DashboardService.FallbackStats | apps/api/src/service/dashboardService.ts:97-112 | without a stats row: one answer per progress row, the correct rows as correct answers, no streak, active today, and never more correct than answered |
| DashboardService.StatsFor | apps/api/src/service/dashboardService.ts:89-112 | the stats row when there is one, and otherwise the counts of the user's progress rows and correct rows; never more correct than answered when the row is well formed |
| DashboardService.AccuracyRate | apps/api/src/service/dashboardService.ts:75-78 | 0 when nothing was answered, at most 100, and exactly 100 when every answer was correct |
| DashboardService.LowestIdAbove | apps/api/src/service/dashboardService.ts:220-229 | the smallest level id above the bound, and none exactly when no id is above it |
| DashboardService.NextLevel | apps/api/src/service/dashboardService.ts:213-230 | no current level (null or 0) gives the lowest id, and otherwise the lowest id above the current one |
| DashboardService.LevelById | apps/api/src/service/dashboardService.ts:16-28 | the left join on the user's level: a level of the table with that id, or none exactly when no level has it |
| DashboardService.CurrentLevelInfo | apps/api/src/service/dashboardService.ts:16-28 | a level of the table with the user's level id and a non-empty name, with its name and threshold; none when no level has that id; with distinct level ids, exactly that level's information when its name is non-empty |
| DashboardService.LevelProgressAll | apps/api/src/service/dashboardService.ts:115-154 | one entry per level in ascending id order, each the level's progress, every percentage at most 100 |
| DashboardService.CorrectRowsAtMostQuestions | apps/api/src/service/dashboardService.ts:115-154 | a level never has more correct rows than questions |
| DashboardService.LevelProgressOf | apps/api/src/service/dashboardService.ts:140-152 | the level's percentage is at most 100 and is the rounded share of correct rows among its questions |
| DashboardService.ActivityByDay | apps/api/src/service/dashboardService.ts:160-173 | the count for a day is the number of the user's rows last answered that day, for the days from `since` onward |
| DashboardService.RecentActivity | apps/api/src/service/dashboardService.ts:156-187 | seven entries, oldest first, one per day ending today, each with that day's count or 0 |
| DashboardService.GetDashboard | apps/api/src/service/dashboardService.ts:14-87 | fails exactly when the user does not exist; otherwise every field is the corresponding aggregation, except that the needs-review field is the intended count `QuestionsNeedingReview` (see Findings); the accuracy is at most 100, and the activity is the seven days ending today, oldest first, each with that day's count; nothing is written |
| VocabularyService.Lower | apps/api/src/service/vocabularyService.ts:17-21 | case folding keeps the length and folds each character |
| VocabularyService.ILikeBasics | apps/api/src/service/vocabularyService.ts:16-21 | an empty search matches every text; a literal occurrence of the search always matches; a match needs a text at least as long as the search |
| VocabularyService.ILikeIgnoresCase | apps/api/src/service/vocabularyService.ts:16-21 | folding the case of the text or of the search first does not change whether they match |
| VocabularyService.MatchesFilters | apps/api/src/service/vocabularyService.ts:13-23 | a matching row is on the requested level and above a truthy cursor; without a cursor or a search exactly the level's rows match; a non-empty search needs a column at least as long as it |
| VocabularyService.MatchingRows | apps/api/src/service/vocabularyService.ts:13-36 | exactly the rows that pass the filter (level, truthy cursor, search in word, reading or meaning), in strictly ascending id order |
| VocabularyService.PageOf | apps/api/src/service/vocabularyService.ts:25-42 | the first `limit` matching rows with their selected columns, in ascending id order; `hasNext` exactly when more rows match than the limit; the next cursor is then the last item's id, and null otherwise |
| VocabularyService.PageItemsMatch | apps/api/src/service/vocabularyService.ts:13-40 | every item of the page is the selection of a matching row of the table |
| VocabularyService.MatchesAboveRow | apps/api/src/service/vocabularyService.ts:13-23 | above a matching row with a positive id, filtering with that id as cursor matches as the original filter |
| VocabularyService.RowsAfterCursor | apps/api/src/service/vocabularyService.ts:13-42 | the rows matching with the k-th row's id as cursor are exactly the matching rows after it |
| VocabularyService.NextPageContinues | apps/api/src/service/vocabularyService.ts:36-42 | the next page continues exactly after the current one; no next cursor means the page holds every matching row |
| VocabularyService.Categories | apps/api/src/service/vocabularyService.ts:44-50 | the distinct categories of the page, each present exactly when some item has it |
| VocabularyService.InCategory | apps/api/src/service/vocabularyService.ts:46-49 | the items of one category, and no others |
| VocabularyService.Groups | apps/api/src/service/vocabularyService.ts:44-54 | one group per category in order of first appearance, each holding its category's items |
| VocabularyService.GroupIndex | apps/api/src/service/vocabularyService.ts:48-49 | the position of a category's group, or -1 exactly when there is none |
| VocabularyService.GroupsSnoc | apps/api/src/service/vocabularyService.ts:46-50 | one more item opens a new group at the end or joins the end of its category's group |
| VocabularyService.GroupByCategory | apps/api/src/service/vocabularyService.ts:44-50 | the loop builds exactly the grouping of the page |
| VocabularyService.GroupSizesSum | apps/api/src/service/vocabularyService.ts:44-54 | the group sizes sum to the page length |
| VocabularyService.GroupOfEachItem | apps/api/src/service/vocabularyService.ts:44-54 | every item has a group of its category, categories are not repeated, and each group holds only its own category |
| VocabularyService.GetVocabularyPaginated | apps/api/src/service/vocabularyService.ts:12-56 | the next cursor is that of the page, the categories are the grouping of the page's items, and the groups hold no more than `limit` items |
| Seed.Shuffle | packages/db/src/seed.ts:24-32 | the result is a permutation of the input |
| Seed.Swapped | packages/db/src/seed.ts:28-30 | the two positions exchange their elements and every other position is unchanged |
| Seed.SwapKeepsElements | packages/db/src/seed.ts:28-30 | a swap keeps the multiset of elements |
| Seed.FirstDefinition | packages/db/src/seed.ts:86-88 | a definition, when present, is not empty |
| Seed.AllDefinitions | packages/db/src/seed.ts:77-79 | exactly the first definitions of the entries that have one |
| Seed.FirstDefinitions | packages/db/src/seed.ts:77-79 | one optional definition per entry, at the entry's position |
| Seed.AllDefinitionsCounts | packages/db/src/seed.ts:77-79 | the pool holds each definition exactly as many times as the entries carry it as their first definition |
| Seed.Distractors | packages/db/src/seed.ts:91 | exactly the pool's definitions other than the correct answer |
| Seed.DistractorsCounts | packages/db/src/seed.ts:91 | the distractors hold every definition other than the correct answer as many times as the pool does |
| Seed.DistractorCount | packages/db/src/seed.ts:91 | the number of distractors is the pool size minus the copies of the correct answer |
| Seed.EligibleWords | packages/db/src/seed.ts:83-94 | exactly the entries with a definition and at least three distractors |
| Seed.BuildOptions | packages/db/src/seed.ts:96-97 | four options, exactly one of them the correct answer; the other three are drawn from the distractors, none used more often than the distractors hold it |
| Seed.QuestionTextLayout | packages/db/src/seed.ts:84-101 | the prompt opens with `What is the meaning of "`, shows the written form or the reading when there is no written form, then `" (`, the reading and `)?` |
| Seed.BuildQuestions | packages/db/src/seed.ts:81-105 | fails exactly when some entry has no written form; otherwise one question per eligible entry, in order, each with its level, prompt, answer and options |
| Seed.EligibleUpToMembers | packages/db/src/seed.ts:83-94 | an entry is selected from the first n exactly when it is one of them and yields a question |
| Seed.QuestionOf | packages/db/src/seed.ts:84-104 | one pass of the inner loop yields a question exactly when the entry has a definition and at least three distractors, and that question carries the entry's level, prompt, answer and four valid options |
| Seed.QuestionsFromPool | packages/db/src/seed.ts:81-105 | for any pool: fails exactly when some entry has no written form; otherwise one question per selected entry, position by position |
| Seed.UpsertLevel | packages/db/src/seed.ts:57-63 | a level with that id ends up with that name; an existing row keeps its id and threshold and other rows are unchanged; a row is appended exactly when the id is new |
| Seed.UpsertLevelsKeeps | packages/db/src/seed.ts:57-63 | upserting never removes a level or changes an id or threshold, and keeps every row of another id |
| Seed.SeedLevelsPresent | packages/db/src/seed.ts:51-63 | after the upsert both JLPT levels exist under their ids and names |
| Seed.UpsertLevels | packages/db/src/seed.ts:51-63 | upserting the rows keeps every level and adds at most one level per row; the last row upserted is present under its id and name |
| Seed.SeedLevel | packages/db/src/seed.ts:67-105 | a level whose fetch gave no entries yields no questions; otherwise the level fails exactly when some entry lacks a written form, and else yields one question per eligible entry, in order |
| Seed.SeedOutcome | packages/db/src/seed.ts:66-114 | a run that stopped after some levels completed exactly when every fetched entry has a written form; an aborted run stopped at a level holding an entry without one; its questions trace back to the seeded levels' entries and, when complete, number the eligible entries |
| Seed.SeedQuestions | packages/db/src/seed.ts:66-114 | completes exactly when no fetched entry lacks a written form; the questions are the concatenation, level by level, of the questions built for each level's eligible entries in order, covering every level when complete and, when aborted, the levels before the one holding the entry without a written form; every question belongs to a seeded level and a fetched entry |
| Seed.SeededQuestionsTraced | packages/db/src/seed.ts:66-114 | every question of the seeded levels was built for one of those levels from one of its fetched entries |
| Seed.SeededQuestionsCounted | packages/db/src/seed.ts:66-114 | the seeded levels hold as many questions as they have eligible entries |

## Findings

| source | as written | input that shows it | evidently intended | confidence | as-written member | corrected member |
|---|---|---|---|---|---|---|
| apps/api/src/service/dashboardService.ts:203-207 | the raw fragment `attempts > 1 OR isCorrect = false` is joined to the user filter by `and(...)` without parentheses of its own, so the filter reads `(user = u AND attempts > 1) OR isCorrect = false` | user "alice" has no progress rows and "bob" has one incorrect row: alice is reported 1 question needing review | count only the user's rows with several attempts or no correct answer | medium: depends on the query builder rendering the fragment unparenthesised; not executed | DashboardService.QuestionsNeedingReviewAsWritten, DashboardService.AsWrittenReviewCountsOtherUsers | DashboardService.QuestionsNeedingReview, DashboardService.ReviewPartition |

`GetDashboard` uses the corrected count.

## Left out

- HTTP routing, authentication, sessions, rate limiting, Redis and e-mail are not part of this model.
- The dictionary fetch and the one-second pause between levels are I/O. `SeedQuestions` takes the fetched entries as a parameter, and a failed fetch is an empty list.
- `Math.random` is an arbitrary choice in `Seed.Shuffle`, so only the permutation is stated, not the distribution.
- `create` draws the new user's id from `crypto.randomUUID()`. Randomness is not modelled, so `Create` takes the id as a parameter and does not assume it is fresh: a taken id is a unique violation.
- Clock readings are day numbers passed in as parameters. Time of day, time zones and the database's `CURRENT_DATE` are not modelled.
- Each attempt overwrites `answeredAt` with the current day, as the upsert does.
- `accuracy` in `completeLesson` is a `real`, not an IEEE double. `Math.round` is exact integer rounding half up, so floating-point error is not modelled.
- The order in which the database returns rows is arbitrary where the query has no `ORDER BY` (`completeLesson`'s attempts).
- Rows with equal sort keys come out in the order the insertion sort gives, not an arbitrary order.
- DashboardService.RoundPercent: rounds the exact ratio. The source divides first and multiplies by 100 in IEEE doubles, so a share that is exactly halfway can fall just below the half and round down there: 29 of 200 gives 14 in the source and 15 in the model. The same holds for `AccuracyRate` and `LevelProgressOf`, which use it.
- The user's level column is read as `currentLevelId`, the name the repository and the services use. The table definition at packages/db/src/schema.ts:26 names it `levelId`.
- Progress rows are keyed by (user, question). The upsert's conflict target at packages/db/src/repository/progressRepositoryImpl.ts:26-27 needs a unique index on that pair, which the table definition at packages/db/src/schema.ts:105-117 does not show. The model assumes it exists.
- Progress rows carry an `answeredAt` column because the upsert writes one (packages/db/src/repository/progressRepositoryImpl.ts:23, :36). The table definition at packages/db/src/schema.ts:105-117 does not define it.
- Concurrency between requests is not modelled. Each call is one atomic step on the database, and transactions commit or roll back as a whole.
- VocabularyService.ILike: compares the search text literally, as a substring up to ASCII case. The query puts the search inside `%...%` unescaped, so in the database a `%` or `_` typed in the search is a wildcard and `\` an escape, and case folding follows the database's collation. The model has no wildcards and folds only `A`-`Z`.
- DashboardService.GetDashboard: reports the intended needs-review count (`QuestionsNeedingReview`), not what the query as written returns (`QuestionsNeedingReviewAsWritten`, which also counts other users' incorrect rows; see "## Findings"). By `AsWrittenReviewCovers` the query as written never reports less.
- VocabularyService.GetVocabularyPaginated: requires `limit >= 1`. The controller admits 10 to 500, and a limit of 0 would read past the start of an empty page.
- The columns that a `completeLesson` stats insert leaves unset (`totalAnswered`, `correctAnswers`) are taken to default to 0.
- Seed.SeedQuestions: returns the questions to insert and whether the run completed. The deletion of old questions and the inserts are not modelled as steps on `Database`. `UpsertLevels` gives the resulting level table.
- Seed.Shuffle: works on a copy held in an array and returns it as a value; the caller's array is never changed, as in the source.
- The crash of the seed script on an entry without a written form is modelled as an incomplete run (`completed == false`); the questions of earlier levels stay inserted.
