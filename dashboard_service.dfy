/**
 * `DashboardService`: read-only aggregations over a snapshot of the tables (accuracy, level
 * progress, the last seven days of activity, mastered and needs-review counts, the next level).
 */
module DashboardService {
  import opened Common
  import opened Schema
  import opened Leveling

  datatype LevelInfo = LevelInfo(name: string, requiredExp: int)

  datatype DashboardUser = DashboardUser(
    name: string,
    currentExp: int,
    currentLevel: Option<LevelInfo>,
    nextLevel: Option<LevelInfo>)

  datatype DashboardStats = DashboardStats(
    totalAnswered: nat,
    correctAnswers: nat,
    accuracyRate: nat,
    streak: nat,
    lastActiveAt: Day)

  datatype LevelProgress = LevelProgress(
    levelName: string,
    totalQuestions: nat,
    answeredCorrect: nat,
    percentage: nat)

  datatype DayCount = DayCount(date: Day, count: nat)

  datatype DashboardData = DashboardData(
    user: DashboardUser,
    stats: DashboardStats,
    levelProgress: seq<LevelProgress>,
    recentActivity: seq<DayCount>,
    questionsMastered: nat,
    questionsNeedingReview: nat)

  /**
   * `Math.round(part / whole * 100)` on exact ratios: the integer nearest to 100·part/whole,
   * a half rounded up. It lies in [0, 100] when part does not exceed whole.
   */
  function RoundPercent(part: nat, whole: nat): (p: nat)
    requires whole > 0
    ensures 200 * part - whole < 2 * whole * p <= 200 * part + whole
    ensures part <= whole ==> p <= 100
  {
    var p := (200 * part + whole) / (2 * whole);
    DivisionBounds(200 * part + whole, 2 * whole, part <= whole);
    p
  }

  /** The Euclidean quotient of `n` by `d` brackets n/d; below 202·whole/d it is at most 100. */
  lemma {:induction false} DivisionBounds(n: nat, d: nat, small: bool)
    requires d > 0 && d % 2 == 0
    requires small ==> n <= 201 * (d / 2)
    ensures n - d < d * (n / d) <= n
    ensures small ==> n / d <= 100
  {
    var p, m := n / d, n % d;
    assert n == d * p + m && 0 <= m < d;
  }

  /** A whole share rounds to exactly 100. */
  lemma {:induction false} FullShareIsHundred(t: nat)
    requires t > 0
    ensures RoundPercent(t, t) == 100
  {
    OnlyHundredInBracket(t, RoundPercent(t, t));
  }

  /** 100 is the only multiplier of 2·t strictly above 199·t and at most 201·t. */
  lemma {:induction false} OnlyHundredInBracket(t: int, p: int)
    requires t > 0 && 199 * t < 2 * t * p <= 201 * t
    ensures p == 100
  {
    MulCancelLess(2 * t, p, 101);
    MulCancelLess(2 * t, 99, p);
  }

  /** Multiplying by a natural number keeps the order. */
  lemma {:induction false} MulMonotone(a: nat, b: int, c: int)
    requires b <= c
    ensures a * b <= a * c
    decreases c - b
  {
    if b < c {
      MulMonotone(a, b, c - 1);
      assert a * c == a * (c - 1) + a;
    }
  }

  /** A strict inequality between multiples of the same natural number holds between the factors. */
  lemma {:induction false} MulCancelLess(a: nat, b: int, c: int)
    requires a * b < a * c
    ensures b < c
  {
    if b >= c {
      MulMonotone(a, c, b);
      assert false;
    }
  }

  /** The rows of `u` in `user_progress`. */
  function UserRecords(progress: map<ProgressKey, ProgressRecord>, u: UserId): set<ProgressKey>
  {
    set k | k in progress && k.0 == u
  }

  /** The needs-review condition: several attempts, or not (yet) correct. */
  predicate NeedsReview(rec: ProgressRecord)
  {
    rec.attempts > 1 || !rec.isCorrect
  }

  /** `getQuestionsMastered`: the number of the user's rows marked correct. */
  function QuestionsMastered(progress: map<ProgressKey, ProgressRecord>, u: UserId): (n: nat)
    ensures n <= |UserRecords(progress, u)|
    ensures n == 0 <==> forall k :: k in progress && k.0 == u ==> !progress[k].isCorrect
  {
    var mastered := set k | k in progress && k.0 == u && progress[k].isCorrect;
    SubsetSize(mastered, UserRecords(progress, u));
    assert forall k :: k in progress && k.0 == u && progress[k].isCorrect ==> mastered != {} by {
      forall k | k in progress && k.0 == u && progress[k].isCorrect ensures mastered != {} {
        assert k in mastered;
      }
    }
    |mastered|
  }

  /** `getQuestionsNeedingReview`: the number of the user's rows that need review. */
  function QuestionsNeedingReview(progress: map<ProgressKey, ProgressRecord>, u: UserId): (n: nat)
    ensures n <= |UserRecords(progress, u)|
    ensures n == 0 <==> forall k :: k in progress && k.0 == u ==> progress[k].attempts <= 1 && progress[k].isCorrect
  {
    var review := set k | k in progress && k.0 == u && NeedsReview(progress[k]);
    SubsetSize(review, UserRecords(progress, u));
    assert forall k :: k in progress && k.0 == u && NeedsReview(progress[k]) ==> review != {} by {
      forall k | k in progress && k.0 == u && NeedsReview(progress[k]) ensures review != {} {
        assert k in review;
      }
    }
    |review|
  }

  /**
   * The needs-review count as the query is written: the raw `attempts > 1 OR isCorrect = false`
   * fragment is joined to the user filter by `and` without parentheses of its own, and since
   * AND binds tighter than OR the filter reads `(user = u AND attempts > 1) OR NOT isCorrect`.
   */
  function QuestionsNeedingReviewAsWritten(progress: map<ProgressKey, ProgressRecord>, u: UserId): nat
  {
    |set k | k in progress && ((k.0 == u && progress[k].attempts > 1) || !progress[k].isCorrect)|
  }

  /**
   * The query as written counts every row the intended one counts, and the two agree exactly
   * when no other user has a row that is not correct.
   */
  lemma {:induction false} AsWrittenReviewCovers(progress: map<ProgressKey, ProgressRecord>, u: UserId)
    ensures QuestionsNeedingReview(progress, u) <= QuestionsNeedingReviewAsWritten(progress, u)
    ensures (forall k :: k in progress && k.0 != u ==> progress[k].isCorrect) ==>
      QuestionsNeedingReviewAsWritten(progress, u) == QuestionsNeedingReview(progress, u)
  {
    var intended := set k | k in progress && k.0 == u && NeedsReview(progress[k]);
    var written := set k | k in progress && ((k.0 == u && progress[k].attempts > 1) || !progress[k].isCorrect);
    assert intended <= written;
    SubsetSize(intended, written);
    if forall k :: k in progress && k.0 != u ==> progress[k].isCorrect {
      assert written == intended;
    }
  }

  /** Each row of another user that is not correct adds one to the count as written. */
  lemma {:induction false} AsWrittenReviewCountsOtherRow(progress: map<ProgressKey, ProgressRecord>, u: UserId, other: ProgressKey)
    requires other in progress && other.0 != u && !progress[other].isCorrect
    ensures QuestionsNeedingReviewAsWritten(progress, u) >= QuestionsNeedingReview(progress, u) + 1
  {
    var intended := set k | k in progress && k.0 == u && NeedsReview(progress[k]);
    var written := set k | k in progress && ((k.0 == u && progress[k].attempts > 1) || !progress[k].isCorrect);
    assert intended + {other} <= written;
    DisjointUnionSize(intended, {other});
    SubsetSize(intended + {other}, written);
  }

  /** A subset is no larger than its superset. */
  lemma {:induction false} SubsetSize<T>(a: set<T>, b: set<T>)
    requires a <= b
    ensures |a| <= |b|
  {
    assert b == a + (b - a);
    DisjointUnionSize(a, b - a);
  }

  /**
   * A user with no progress rows at all is reported a question to review as soon as another
   * user has answered a question wrongly; the intended count is 0.
   */
  lemma {:induction false} AsWrittenReviewCountsOtherUsers()
    ensures var progress := map[("bob", 1) := ProgressRecord("bob", 1, false, 1, 0, 0)];
      QuestionsNeedingReview(progress, "alice") == 0 && QuestionsNeedingReviewAsWritten(progress, "alice") >= 1
  {
    var progress := map[("bob", 1) := ProgressRecord("bob", 1, false, 1, 0, 0)];
    assert "bob" != "alice" by { assert "bob"[0] != "alice"[0]; }
    assert UserRecords(progress, "alice") == {};
    ReviewPartition(progress, "alice");
    AsWrittenReviewCountsOtherRow(progress, "alice", ("bob", 1));
  }

  /** The cardinality of a union of disjoint sets. */
  lemma {:induction false} DisjointUnionSize<T>(a: set<T>, b: set<T>)
    requires a !! b
    ensures |a + b| == |a| + |b|
  {
  }

  /**
   * Every row of the user either needs review or was answered correctly at the first attempt,
   * so the needs-review count plus the first-try-correct count is the number of rows, and
   * neither the mastered nor the needs-review count exceeds it. Hence every row is mastered or
   * needs review.
   */
  lemma {:induction false} ReviewPartition(progress: map<ProgressKey, ProgressRecord>, u: UserId)
    ensures var firstTry := set k | k in progress && k.0 == u && !NeedsReview(progress[k]);
      && QuestionsNeedingReview(progress, u) + |firstTry| == |UserRecords(progress, u)|
      && |firstTry| <= QuestionsMastered(progress, u)
      && QuestionsMastered(progress, u) <= |UserRecords(progress, u)|
      && QuestionsNeedingReview(progress, u) <= |UserRecords(progress, u)|
      && |UserRecords(progress, u)| <= QuestionsMastered(progress, u) + QuestionsNeedingReview(progress, u)
  {
    var all := UserRecords(progress, u);
    var review := set k | k in progress && k.0 == u && NeedsReview(progress[k]);
    var firstTry := set k | k in progress && k.0 == u && !NeedsReview(progress[k]);
    var mastered := set k | k in progress && k.0 == u && progress[k].isCorrect;
    assert all == review + firstTry;
    DisjointUnionSize(review, firstTry);
    assert firstTry <= mastered;
    SubsetSize(firstTry, mastered);
    assert mastered <= all;
    SubsetSize(mastered, all);
    assert review <= all;
    SubsetSize(review, all);
  }

  /**
   * The stats used when the user has no stats row: one answer per progress row, the correct
   * rows as correct answers, no streak, active today.
   */
  function FallbackStats(progress: map<ProgressKey, ProgressRecord>, u: UserId, today: Day): (s: UserStats)
    ensures s.totalAnswered == |UserRecords(progress, u)| && s.correctAnswers == QuestionsMastered(progress, u)
    ensures s.correctAnswers <= s.totalAnswered
    ensures s.streak == 0 && s.lastActiveAt == today
  {
    ReviewPartition(progress, u);
    UserStats(u, |UserRecords(progress, u)|, QuestionsMastered(progress, u), 0, today)
  }

  /** `getUserStats`: the stats row, or the fallback computed from the progress rows. */
  function StatsFor(stats: map<UserId, UserStats>, progress: map<ProgressKey, ProgressRecord>, u: UserId, today: Day): (s: UserStats)
    ensures u in stats ==> s == stats[u]
    ensures u !in stats ==> s.totalAnswered == |UserRecords(progress, u)| && s.correctAnswers == QuestionsMastered(progress, u)
    ensures (u in stats ==> StatsWellFormed(u, stats[u])) ==> s.correctAnswers <= s.totalAnswered
  {
    if u in stats then stats[u] else FallbackStats(progress, u, today)
  }

  /** The dashboard's accuracy: the rounded percentage of correct answers, 0 when nothing was answered. */
  function AccuracyRate(s: UserStats): (rate: nat)
    ensures s.totalAnswered == 0 ==> rate == 0
    ensures s.correctAnswers <= s.totalAnswered ==> rate <= 100
    ensures s.totalAnswered > 0 && s.correctAnswers == s.totalAnswered ==> rate == 100
  {
    if s.totalAnswered > 0 then
      FullShareIsHundred(s.totalAnswered);
      RoundPercent(s.correctAnswers, s.totalAnswered)
    else 0
  }

  /** The ordering key of `ORDER BY id`. */
  function IdKey(l: Level): int
  {
    l.id
  }

  /**
   * The level with the smallest id above `bound` (any id when `bound` is None), or None when
   * there is no such level.
   */
  function LowestIdAbove(levels: seq<Level>, bound: Option<LevelId>): (r: Option<Level>)
    ensures r.Some? ==> r.value in levels && (bound.Some? ==> r.value.id > bound.value)
    ensures r.Some? ==> forall l :: l in levels && (bound.None? || l.id > bound.value) ==> r.value.id <= l.id
    ensures r.None? <==> forall l :: l in levels ==> bound.Some? && l.id <= bound.value
  {
    if levels == [] then None
    else
      var rest := LowestIdAbove(levels[1..], bound);
      var head := levels[0];
      assert levels == [head] + levels[1..];
      if bound.Some? && head.id <= bound.value then rest
      else if rest.Some? && rest.value.id < head.id then rest
      else Some(head)
  }

  /**
   * `getNextLevel`: with no current level (null, or the falsy id 0) the level with the lowest
   * id; otherwise the level with the smallest id above the current one; null when there is none.
   */
  function NextLevel(levels: seq<Level>, current: Option<LevelId>): (r: Option<Level>)
    ensures r.Some? ==> r.value in levels
    ensures r.Some? && current.Some? && current.value != 0 ==> r.value.id > current.value
    ensures r.Some? ==> forall l :: l in levels && (current.None? || current.value == 0 || l.id > current.value) ==> r.value.id <= l.id
    ensures r.None? <==> forall l :: l in levels ==> current.Some? && current.value != 0 && l.id <= current.value
  {
    if current.None? || current.value == 0 then LowestIdAbove(levels, None)
    else LowestIdAbove(levels, current)
  }

  /** The level a user id refers to (the left join on `currentLevelId`), if any. */
  function LevelById(levels: seq<Level>, id: Option<LevelId>): (r: Option<Level>)
    ensures r.Some? ==> r.value in levels && id == Some(r.value.id)
    ensures r.None? ==> forall l :: l in levels ==> id != Some(l.id)
  {
    var k := FindIndex(levels, id);
    if k == -1 then None else Some(levels[k])
  }

  /** The dashboard's current level: present when the joined level exists and its name is non-empty. */
  function CurrentLevelInfo(levels: seq<Level>, id: Option<LevelId>): (r: Option<LevelInfo>)
    ensures r.Some? ==> exists l :: l in levels && id == Some(l.id) && l.name != ""
                                    && r.value == LevelInfo(l.name, l.requiredExp)
    ensures (forall l :: l in levels ==> id != Some(l.id)) ==> r.None?
    ensures DistinctLevelIds(levels) ==>
              forall l :: l in levels && id == Some(l.id) ==> r == if l.name != "" then Some(LevelInfo(l.name, l.requiredExp)) else None
  {
    var l := LevelById(levels, id);
    if l.Some? && l.value.name != "" then Some(LevelInfo(l.value.name, l.value.requiredExp)) else None
  }

  /** The questions of a level. */
  function LevelQuestions(questions: map<QuestionId, Question>, levelId: LevelId): set<QuestionId>
  {
    set q | q in questions && questions[q].levelId == levelId
  }

  /** The user's correct rows joined with the questions of a level. */
  function CorrectRowsOfLevel(progress: map<ProgressKey, ProgressRecord>, questions: map<QuestionId, Question>, u: UserId, levelId: LevelId): set<ProgressKey>
  {
    set k | k in progress && k.0 == u && progress[k].isCorrect && k.1 in questions && questions[k.1].levelId == levelId
  }

  /** Rows of one user have distinct question ids, so projecting them on the question id keeps their number. */
  lemma {:induction false} ProjectionKeepsSize(keys: set<ProgressKey>, u: UserId)
    requires forall k :: k in keys ==> k.0 == u
    ensures |set k | k in keys :: k.1| == |keys|
    decreases keys
  {
    if keys != {} {
      var x :| x in keys;
      var rest := keys - {x};
      ProjectionKeepsSize(rest, u);
      assert (set k | k in keys :: k.1) == (set k | k in rest :: k.1) + {x.1};
      assert x.1 !in (set k | k in rest :: k.1);
    }
  }

  /** A user cannot have more correct rows for a level than the level has questions. */
  lemma {:induction false} CorrectRowsAtMostQuestions(progress: map<ProgressKey, ProgressRecord>, questions: map<QuestionId, Question>, u: UserId, levelId: LevelId)
    ensures |CorrectRowsOfLevel(progress, questions, u, levelId)| <= |LevelQuestions(questions, levelId)|
  {
    var rows := CorrectRowsOfLevel(progress, questions, u, levelId);
    var ids := set k | k in rows :: k.1;
    var all := LevelQuestions(questions, levelId);
    ProjectionKeepsSize(rows, u);
    assert all == ids + (all - ids);
    DisjointUnionSize(ids, all - ids);
  }

  /** One entry of `getLevelProgress`: the percentage lies in [0, 100] and is 0 for a level without questions. */
  function LevelProgressOf(level: Level, questions: map<QuestionId, Question>, progress: map<ProgressKey, ProgressRecord>, u: UserId): (r: LevelProgress)
    ensures r.levelName == level.name
    ensures r.totalQuestions == |LevelQuestions(questions, level.id)|
    ensures r.answeredCorrect == |CorrectRowsOfLevel(progress, questions, u, level.id)|
    ensures r.answeredCorrect <= r.totalQuestions && r.percentage <= 100
    ensures r.totalQuestions == 0 ==> r.percentage == 0
    ensures r.totalQuestions > 0 ==>
              200 * r.answeredCorrect - r.totalQuestions < 2 * r.totalQuestions * r.percentage
                                                        <= 200 * r.answeredCorrect + r.totalQuestions
  {
    CorrectRowsAtMostQuestions(progress, questions, u, level.id);
    var total := |LevelQuestions(questions, level.id)|;
    var correct := |CorrectRowsOfLevel(progress, questions, u, level.id)|;
    LevelProgress(level.name, total, correct, if total > 0 then RoundPercent(correct, total) else 0)
  }

  /** `getLevelProgress`: one entry per level, in ascending order of level id. */
  function LevelProgressAll(levels: seq<Level>, questions: map<QuestionId, Question>, progress: map<ProgressKey, ProgressRecord>, u: UserId): (r: seq<LevelProgress>)
    ensures |r| == |levels|
    ensures forall i :: 0 <= i < |r| ==> r[i] == LevelProgressOf(SortBy(levels, IdKey)[i], questions, progress, u)
    ensures forall i :: 0 <= i < |r| ==> r[i].percentage <= 100
  {
    var sorted := SortBy(levels, IdKey);
    seq(|sorted|, i requires 0 <= i < |sorted| => LevelProgressOf(sorted[i], questions, progress, u))
  }

  /** The number of the user's rows last answered on `day`. */
  function ActivityOn(progress: map<ProgressKey, ProgressRecord>, u: UserId, day: Day): nat
  {
    |set k | k in progress && k.0 == u && progress[k].answeredAt == day|
  }

  /** The grouped query of `getRecentActivity`: for each day since `since` with rows, their number. */
  function ActivityByDay(progress: map<ProgressKey, ProgressRecord>, u: UserId, since: Day): (m: map<Day, nat>)
    ensures forall d :: d in m ==> m[d] == ActivityOn(progress, u, d)
    ensures forall d :: d >= since && d !in m ==> ActivityOn(progress, u, d) == 0
  {
    var days := set k | k in progress && k.0 == u && progress[k].answeredAt >= since :: progress[k].answeredAt;
    var m := map d | d in days :: ActivityOn(progress, u, d);
    assert forall d :: d >= since && d !in m ==> (set k | k in progress && k.0 == u && progress[k].answeredAt == d) == {};
    m
  }

  /**
   * `getRecentActivity`: seven entries, oldest first and ending today, each with the number of
   * rows answered that day; days without rows count 0.
   */
  method RecentActivity(progress: map<ProgressKey, ProgressRecord>, u: UserId, today: Day) returns (result: seq<DayCount>)
    ensures |result| == 7
    ensures forall j :: 0 <= j < 7 ==> result[j] == DayCount(today - 6 + j, ActivityOn(progress, u, today - 6 + j))
  {
    var activityMap := ActivityByDay(progress, u, today - 7);
    result := [];
    var i := 6;
    while i >= 0
      invariant -1 <= i <= 6
      invariant |result| == 6 - i
      invariant forall j :: 0 <= j < |result| ==> result[j] == DayCount(today - 6 + j, ActivityOn(progress, u, today - 6 + j))
    {
      var date := today - i;
      var count := if date in activityMap then activityMap[date] else 0;
      result := result + [DayCount(date, count)];
      i := i - 1;
    }
  }

  /** The dashboard's view of a stats row. */
  function StatsView(s: UserStats): (v: DashboardStats)
    ensures v.totalAnswered == s.totalAnswered && v.correctAnswers == s.correctAnswers
    ensures v.accuracyRate == AccuracyRate(s) && v.streak == s.streak && v.lastActiveAt == s.lastActiveAt
  {
    DashboardStats(s.totalAnswered, s.correctAnswers, AccuracyRate(s), s.streak, s.lastActiveAt)
  }

  /**
   * `getDashboard`: fails for an unknown user; otherwise assembles the user's levels, stats,
   * level progress, recent activity and review counts. Every percentage lies in [0, 100].
   */
  method GetDashboard(db: Database, userId: UserId, today: Day) returns (r: Result<DashboardData>)
    requires db.Valid()
    ensures r.Err? <==> userId !in db.users
    ensures r.Err? ==> r.error == UserNotFound
    ensures r.Ok? ==>
              var user := db.users[userId];
              var next := NextLevel(db.levels, user.currentLevelId);
              && r.value.user.name == user.name
              && r.value.user.currentExp == user.currentExp
              && r.value.user.currentLevel == CurrentLevelInfo(db.levels, user.currentLevelId)
              && r.value.user.nextLevel == (if next.Some? then Some(LevelInfo(next.value.name, next.value.requiredExp)) else None)
              && r.value.stats == StatsView(StatsFor(db.stats, db.progress, userId, today))
              && r.value.stats.accuracyRate <= 100
              && r.value.levelProgress == LevelProgressAll(db.levels, db.questions, db.progress, userId)
              && |r.value.recentActivity| == 7
              && (forall j :: 0 <= j < 7 ==>
                    r.value.recentActivity[j] == DayCount(today - 6 + j, ActivityOn(db.progress, userId, today - 6 + j)))
              && r.value.questionsMastered == QuestionsMastered(db.progress, userId)
              && r.value.questionsNeedingReview == QuestionsNeedingReview(db.progress, userId)
  {
    if userId !in db.users {
      return Err(UserNotFound);
    }
    var user := db.users[userId];
    var currentLevel := CurrentLevelInfo(db.levels, user.currentLevelId);
    var nextLevel := NextLevel(db.levels, user.currentLevelId);
    var statsData := StatsFor(db.stats, db.progress, userId, today);
    var levelProgressData := LevelProgressAll(db.levels, db.questions, db.progress, userId);
    var recentActivityData := RecentActivity(db.progress, userId, today);
    var masteredCount := QuestionsMastered(db.progress, userId);
    var needsReviewCount := QuestionsNeedingReview(db.progress, userId);

    r := Ok(DashboardData(
      DashboardUser(
        user.name,
        user.currentExp,
        currentLevel,
        if nextLevel.Some? then Some(LevelInfo(nextLevel.value.name, nextLevel.value.requiredExp)) else None),
      StatsView(statsData),
      levelProgressData,
      recentActivityData,
      masteredCount,
      needsReviewCount));
  }
}
