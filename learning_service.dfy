/**
 * `LearningService`: answer submission (one transaction over progress, user and stats rows)
 * and lesson completion (count of correct recorded attempts, a flat experience award and the
 * day-boundary streak rule).
 */
module LearningService {
  import opened Common
  import opened Schema
  import opened Leveling
  import opened UserRepository
  import opened ProgressRepository

  /** The response of `submitAnswer`; the two nullable fields are set only after an experience award. */
  datatype SubmitResult = SubmitResult(
    isCorrect: bool,
    correctAnswer: string,
    expEarned: int,
    leveledUp: bool,
    newLevelId: Option<LevelId>,
    userExp: Option<int>,
    attempts: nat)

  /** The response of `completeLesson`. */
  datatype LessonResult = LessonResult(
    total: nat,
    correct: nat,
    accuracy: real,
    expEarned: int,
    userExp: int,
    levelId: Option<LevelId>)

  /** The answer is correct only when it is exactly the stored answer: no trimming, no case folding. */
  predicate AnswerMatches(q: Question, userAnswer: string)
  {
    q.correctAnswer == userAnswer
  }

  /** A correct answer on a question that had no row, or whose row was not yet correct. */
  predicate IsFirstCorrect(prev: Option<ProgressRecord>, isCorrect: bool)
  {
    isCorrect && (prev.None? || !prev.value.isCorrect)
  }

  /** The stats row of `u`, if there is one. */
  function StatsOf(stats: map<UserId, UserStats>, u: UserId): Option<UserStats>
  {
    if u in stats then Some(stats[u]) else None
  }

  /**
   * The stats row after one answer: a missing row is created with one answer, and a present
   * row counts one more answer; the correct count grows exactly when the answer is correct.
   * The streak is left as it was.
   */
  function StatsAfterAnswer(row: Option<UserStats>, u: UserId, isCorrect: bool, now: Day): (r: UserStats)
    ensures r.totalAnswered == (if row.Some? then row.value.totalAnswered else 0) + 1
    ensures r.correctAnswers == (if row.Some? then row.value.correctAnswers else 0) + (if isCorrect then 1 else 0)
    ensures r.streak == (if row.Some? then row.value.streak else 1)
    ensures r.lastActiveAt == now
    ensures row.Some? ==> StatsWellFormed(u, row.value) ==> StatsWellFormed(u, r)
    ensures row.None? ==> StatsWellFormed(u, r)
  {
    match row
    case None => UserStats(u, 1, if isCorrect then 1 else 0, 1, now)
    case Some(s) =>
      s.(totalAnswered := s.totalAnswered + 1,
         correctAnswers := if isCorrect then s.correctAnswers + 1 else s.correctAnswers,
         lastActiveAt := now)
  }

  /** The streak rule: active yesterday continues the streak, active today keeps it, anything else restarts it. */
  function NextStreak(s: UserStats, today: Day): (n: nat)
    ensures s.lastActiveAt == today - 1 ==> n == s.streak + 1
    ensures s.lastActiveAt == today ==> n == s.streak
    ensures s.lastActiveAt != today - 1 && s.lastActiveAt != today ==> n == 1
    ensures s.streak >= 1 ==> n >= 1
  {
    if s.lastActiveAt == today - 1 then s.streak + 1
    else if s.lastActiveAt == today then s.streak
    else 1
  }

  /** The stats row after a lesson: a missing row starts a streak of one. */
  function StatsAfterLesson(row: Option<UserStats>, u: UserId, today: Day): (r: UserStats)
    ensures r.lastActiveAt == today
    ensures row.Some? ==> r.totalAnswered == row.value.totalAnswered && r.correctAnswers == row.value.correctAnswers
    ensures row.Some? && StatsWellFormed(u, row.value) ==> StatsWellFormed(u, r)
    ensures row.None? ==> StatsWellFormed(u, r) && r.streak == 1
    ensures row.Some? && row.value.lastActiveAt == today - 1 ==> r.streak == row.value.streak + 1
    ensures row.Some? && row.value.lastActiveAt == today ==> r.streak == row.value.streak
    ensures row.Some? && row.value.lastActiveAt != today - 1 && row.value.lastActiveAt != today ==> r.streak == 1
  {
    match row
    case None => UserStats(u, 0, 0, 1, today)
    case Some(s) => s.(streak := NextStreak(s, today), lastActiveAt := today)
  }

  /** The listed questions whose recorded attempt by `u` is correct. */
  function CorrectQuestions(progress: map<ProgressKey, ProgressRecord>, u: UserId, questionIds: seq<QuestionId>): set<QuestionId>
  {
    set q | q in questionIds && (u, q) in progress && progress[(u, q)].isCorrect
  }

  /** `correct / total`, and 0 for an empty lesson. */
  function Accuracy(correct: nat, total: nat): (a: real)
    ensures total == 0 ==> a == 0.0
    ensures total > 0 ==> a * (total as real) == correct as real
    ensures correct <= total ==> 0.0 <= a <= 1.0
  {
    if total > 0 then (correct as real) / (total as real) else 0.0
  }

  /** A lesson never counts more correct questions than it lists. */
  lemma {:induction false} LessonCorrectAtMostTotal(progress: map<ProgressKey, ProgressRecord>, u: UserId, questionIds: seq<QuestionId>)
    ensures |CorrectQuestions(progress, u, questionIds)| <= |questionIds|
    ensures 0.0 <= Accuracy(|CorrectQuestions(progress, u, questionIds)|, |questionIds|) <= 1.0
  {
    var listed := set q | q in questionIds;
    var correct := CorrectQuestions(progress, u, questionIds);
    assert listed == correct + (listed - correct);
    DistinctElementsBound(questionIds);
  }

  /**
   * A first-correct answer is exactly the one that turns the progress row's flag on: the row
   * was missing or not correct before the upsert, and is correct after it.
   */
  lemma {:induction false} FirstCorrectIsTransition(prev: Option<ProgressRecord>, u: UserId, q: QuestionId, isCorrect: bool, now: Day)
    ensures IsFirstCorrect(prev, isCorrect)
        <==> !(prev.Some? && prev.value.isCorrect) && Upserted(prev, u, q, isCorrect, now).isCorrect
  {
  }

  /**
   * Answering the same question correctly twice: the first answer is a first-correct
   * transition and the second is not, whatever the row looked like before.
   */
  lemma {:induction false} SecondCorrectIsNotFirst(prev: Option<ProgressRecord>, u: UserId, q: QuestionId, now: Day)
    ensures !IsFirstCorrect(Some(Upserted(prev, u, q, true, now)), true)
  {
  }

  /**
   * Over any sequence of answers to one question, at most one is a first-correct transition,
   * so at most one point of experience is ever awarded for it.
   */
  function FirstCorrectCount(prev: Option<ProgressRecord>, u: UserId, q: QuestionId, answers: seq<bool>, now: Day): nat
    decreases |answers|
  {
    if answers == [] then 0
    else
      (if IsFirstCorrect(prev, answers[0]) then 1 else 0)
      + FirstCorrectCount(Some(Upserted(prev, u, q, answers[0], now)), u, q, answers[1..], now)
  }

  /**
   * Experience from answers is awarded at most once per question: exactly once when the row
   * was not yet correct and some answer is correct, never otherwise.
   */
  lemma {:induction false} FirstCorrectAtMostOnce(prev: Option<ProgressRecord>, u: UserId, q: QuestionId, answers: seq<bool>, now: Day)
    ensures FirstCorrectCount(prev, u, q, answers, now)
         == (if (prev.None? || !prev.value.isCorrect) && true in answers then 1 else 0)
    decreases |answers|
  {
    if answers != [] {
      var next := Some(Upserted(prev, u, q, answers[0], now));
      FirstCorrectAtMostOnce(next, u, q, answers[1..], now);
      assert answers == [answers[0]] + answers[1..];
    }
  }

  /** The stats row after lessons on each of `days` in turn. */
  function LessonsOn(row: Option<UserStats>, u: UserId, days: seq<Day>): Option<UserStats>
    decreases |days|
  {
    if days == [] then row
    else LessonsOn(Some(StatsAfterLesson(row, u, days[0])), u, days[1..])
  }

  /** Lessons on consecutive days after an active day extend the streak by one per day. */
  lemma {:induction false} ConsecutiveLessonsExtendStreak(s: UserStats, u: UserId, days: seq<Day>)
    requires forall i :: 0 <= i < |days| ==> days[i] == s.lastActiveAt + 1 + i
    ensures var r := LessonsOn(Some(s), u, days);
      r.Some? && r.value.streak == s.streak + |days|
    decreases |days|
  {
    if days != [] {
      var next := StatsAfterLesson(Some(s), u, days[0]);
      assert next.streak == s.streak + 1 && next.lastActiveAt == days[0];
      ConsecutiveLessonsExtendStreak(next, u, days[1..]);
    }
  }

  /**
   * After a missed day the streak restarts: lessons on consecutive days that begin more than a
   * day after the last active day end with a streak equal to the number of those lessons.
   */
  lemma {:induction false} GapRestartsStreak(s: UserStats, u: UserId, days: seq<Day>)
    requires |days| > 0 && days[0] > s.lastActiveAt + 1
    requires forall i :: 0 <= i < |days| ==> days[i] == days[0] + i
    ensures var r := LessonsOn(Some(s), u, days);
      r.Some? && r.value.streak == |days|
  {
    var first := StatsAfterLesson(Some(s), u, days[0]);
    assert first.streak == 1 && first.lastActiveAt == days[0];
    var rest := days[1..];
    forall i | 0 <= i < |rest| ensures rest[i] == first.lastActiveAt + 1 + i {
      assert rest[i] == days[i + 1];
    }
    ConsecutiveLessonsExtendStreak(first, u, rest);
  }

  /**
   * An answer submitted earlier on the same day marks the user active today without touching
   * the streak, so a lesson completed afterwards leaves the streak as it was.
   */
  lemma {:induction false} AnswerThenLessonKeepsStreak(row: Option<UserStats>, u: UserId, isCorrect: bool, today: Day)
    ensures StatsAfterLesson(Some(StatsAfterAnswer(row, u, isCorrect, today)), u, today).streak
         == (if row.Some? then row.value.streak else 1)
  {
  }

  /**
   * `submitAnswer`. An unknown question fails before anything is written. Otherwise, in one
   * transaction: the attempt is recorded; on a first-correct transition the user gains one point
   * through `addExp`; the stats row counts the answer. A failure inside the transaction undoes
   * every write of the call.
   */
  method SubmitAnswer(db: Database, userId: UserId, questionId: QuestionId, userAnswer: string, now: Day)
    returns (r: Result<SubmitResult>)
    requires db.Valid()
    modifies db
    ensures db.Valid()
    ensures db.levels == old(db.levels) && db.questions == old(db.questions)
    ensures r.Err? ==> db.users == old(db.users) && db.progress == old(db.progress) && db.stats == old(db.stats)
    ensures questionId !in old(db.questions) ==> r == Err(QuestionNotFound)
    ensures questionId in old(db.questions) && userId !in old(db.users) ==> r == Err(ForeignKeyViolation)
    ensures questionId in old(db.questions) && userId in old(db.users) ==>
              var isCorrect := AnswerMatches(old(db.questions)[questionId], userAnswer);
              var prev := ProgressOf(old(db.progress), userId, questionId);
              var first := IsFirstCorrect(prev, isCorrect);
              && (first && old(db.levels) == [] ==> r == Err(NoLevelsConfigured))
              && (!(first && old(db.levels) == []) ==>
                    && r.Ok?
                    && r.value.isCorrect == isCorrect
                    && r.value.correctAnswer == old(db.questions)[questionId].correctAnswer
                    && r.value.expEarned == (if first then 1 else 0)
                    && db.progress == old(db.progress)[(userId, questionId) := Upserted(prev, userId, questionId, isCorrect, now)]
                    && r.value.attempts == db.progress[(userId, questionId)].attempts
                    && db.stats == old(db.stats)[userId := StatsAfterAnswer(StatsOf(old(db.stats), userId), userId, isCorrect, now)]
                    && (first ==>
                          && db.users == old(db.users)[userId := Leveled(old(db.users)[userId], ByRequiredExp(old(db.levels)), 1, now)]
                          && r.value.newLevelId == db.users[userId].currentLevelId
                          && r.value.userExp == Some(db.users[userId].currentExp))
                    && (!first ==> db.users == old(db.users) && r.value.newLevelId == None && r.value.userExp == None)
                    && (r.value.leveledUp <==> first && old(db.users)[userId].currentLevelId != db.users[userId].currentLevelId))
  {
    if questionId !in db.questions {
      return Err(QuestionNotFound);
    }
    var question := db.questions[questionId];
    var isCorrect := AnswerMatches(question, userAnswer);

    // The transaction: every write below is undone if a later step fails.
    var savedProgress := db.progress;
    var previousProgress := ProgressOf(db.progress, userId, questionId);
    var recorded := RecordAttempt(db, userId, questionId, isCorrect, now);
    if recorded.Err? {
      return Err(recorded.error);
    }
    var progress := recorded.value;

    var isFirstCorrect := isCorrect && (previousProgress.None? || !previousProgress.value.isCorrect);
    var expEarned := 0;
    var leveledUp := false;
    var updatedUser: Option<User> := None;

    if isFirstCorrect {
      var previousUser := FindById(db, userId);
      var added := AddExp(db, userId, 1, now);
      if added.Err? {
        db.RestoreProgress(savedProgress);
        return Err(added.error);
      }
      updatedUser := Some(added.value);
      expEarned := 1;
      if previousUser.Some? && previousUser.value.currentLevelId != added.value.currentLevelId {
        leveledUp := true;
      }
    }

    var statsRow := StatsAfterAnswer(StatsOf(db.stats, userId), userId, isCorrect, now);
    db.PutStats(userId, statsRow);

    r := Ok(SubmitResult(
      isCorrect,
      question.correctAnswer,
      expEarned,
      leveledUp,
      if updatedUser.Some? then updatedUser.value.currentLevelId else None,
      if updatedUser.Some? then Some(updatedUser.value.currentExp) else None,
      progress.attempts));
  }

  /**
   * The rows of `completeLesson`'s query, read one at a time in no particular order: the
   * correctness of the first row seen for each question id, keyed by that id.
   */
  method LatestCorrectness(progress: map<ProgressKey, ProgressRecord>, userId: UserId, questionIds: seq<QuestionId>)
    returns (latest: map<QuestionId, bool>)
    ensures forall q :: q in latest <==> q in questionIds && (userId, q) in progress
    ensures forall q :: q in latest ==> latest[q] == progress[(userId, q)].isCorrect
  {
    var attempts := set k | k in progress && k.0 == userId && k.1 in questionIds;
    latest := map[];
    var rest := attempts;
    while rest != {}
      invariant rest <= attempts
      invariant forall q :: q in latest <==> (userId, q) in attempts - rest
      invariant forall q :: q in latest ==> latest[q] == progress[(userId, q)].isCorrect
      decreases rest
    {
      var a :| a in rest;
      if a.1 !in latest {
        latest := latest[a.1 := progress[a].isCorrect];
      }
      rest := rest - {a};
    }
  }

  /** Some element of a non-empty set. */
  method PickOne<T>(s: set<T>) returns (x: T)
    requires s != {}
    ensures x in s
  {
    x :| x in s;
  }

  /** `latest.forEach`: the number of entries whose value is true. */
  method CountCorrect(latest: map<QuestionId, bool>) returns (correct: nat)
    ensures correct == |set q | q in latest && latest[q]|
  {
    correct := 0;
    var pending := latest.Keys;
    while pending != {}
      invariant pending <= latest.Keys
      invariant correct == |set q | q in latest.Keys - pending && latest[q]|
      decreases pending
    {
      var q := PickOne(pending);
      ghost var before := set p | p in latest.Keys - pending && latest[p];
      ghost var after := set p | p in latest.Keys - (pending - {q}) && latest[p];
      if latest[q] {
        assert after == before + {q};
        correct := correct + 1;
      } else {
        assert after == before;
      }
      pending := pending - {q};
    }
    assert (set q | q in latest.Keys - pending && latest[q]) == set q | q in latest && latest[q];
  }

  /**
   * `completeLesson`: counts the listed questions whose recorded attempt is correct, awards a
   * flat one point through `addExp` whatever the accuracy, and applies the streak rule to the
   * stats row. Progress rows are only read. A failure of `addExp` writes nothing.
   */
  method CompleteLesson(db: Database, userId: UserId, questionIds: seq<QuestionId>, now: Day)
    returns (r: Result<LessonResult>)
    requires db.Valid()
    modifies db
    ensures db.Valid()
    ensures db.levels == old(db.levels) && db.questions == old(db.questions) && db.progress == old(db.progress)
    ensures r.Err? ==> db.users == old(db.users) && db.stats == old(db.stats)
    ensures userId !in old(db.users) ==> r == Err(UserNotFound)
    ensures userId in old(db.users) && old(db.levels) == [] ==> r == Err(NoLevelsConfigured)
    ensures userId in old(db.users) && old(db.levels) != [] ==>
              && r.Ok?
              && r.value.total == |questionIds|
              && r.value.correct == |CorrectQuestions(old(db.progress), userId, questionIds)|
              && r.value.accuracy == Accuracy(r.value.correct, r.value.total)
              && r.value.expEarned == 1
              && db.users == old(db.users)[userId := Leveled(old(db.users)[userId], ByRequiredExp(old(db.levels)), 1, now)]
              && db.stats == old(db.stats)[userId := StatsAfterLesson(StatsOf(old(db.stats), userId), userId, now)]
              && r.value.userExp == db.users[userId].currentExp
              && r.value.levelId == db.users[userId].currentLevelId
  {
    var latest := LatestCorrectness(db.progress, userId, questionIds);
    var total := |questionIds|;
    var correct := CountCorrect(latest);
    forall q ensures (q in latest && latest[q]) <==> q in CorrectQuestions(db.progress, userId, questionIds) {
    }
    assert (set q | q in latest && latest[q]) == CorrectQuestions(db.progress, userId, questionIds);

    var accuracy := if total > 0 then (correct as real) / (total as real) else 0.0;
    var expEarned := 1;
    if accuracy == 1.0 {
      expEarned := 1;
    } else if accuracy >= 0.7 {
      expEarned := 1;
    }

    var added := AddExp(db, userId, expEarned, now);
    if added.Err? {
      return Err(added.error);
    }
    var updatedUser := added.value;

    var statsRow := StatsAfterLesson(StatsOf(db.stats, userId), userId, now);
    db.PutStats(userId, statsRow);

    r := Ok(LessonResult(total, correct, accuracy, expEarned, updatedUser.currentExp, updatedUser.currentLevelId));
  }

  /** Submitting the correct answer twice to a question never answered before earns 1 point, then 0. */
  method SubmitCorrectTwice(db: Database, userId: UserId, questionId: QuestionId, now: Day)
    returns (first: int, second: int)
    requires db.Valid()
    requires userId in db.users && questionId in db.questions && db.levels != []
    requires (userId, questionId) !in db.progress
    modifies db
    ensures first == 1 && second == 0
  {
    var answer := db.questions[questionId].correctAnswer;
    var r1 := SubmitAnswer(db, userId, questionId, answer, now);
    var r2 := SubmitAnswer(db, userId, questionId, answer, now);
    first, second := r1.value.expEarned, r2.value.expEarned;
  }
}
