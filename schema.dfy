/**
 * The rows of the application's tables and the database that holds them.
 * Timestamps are kept as day numbers; time of day is not modelled.
 */
module Schema {
  import opened Common

  type UserId = string
  type LevelId = int
  type QuestionId = int
  /** A calendar day, numbered consecutively. */
  type Day = int

  /** A row of `users`; `currentLevelId` is the nullable reference to `levels`. */
  datatype User = User(
    id: UserId,
    name: string,
    email: string,
    emailVerified: bool,
    image: Option<string>,
    currentExp: int,
    currentLevelId: Option<LevelId>,
    updatedAt: Day)

  /** A row of `levels`: a tier and the experience needed to leave it. */
  datatype Level = Level(id: LevelId, name: string, requiredExp: int)

  /** A row of `questions`. */
  datatype Question = Question(
    id: QuestionId,
    levelId: LevelId,
    questionText: string,
    correctAnswer: string,
    options: seq<string>)

  /** A row of `user_progress`: the attempt history of one user on one question. */
  datatype ProgressRecord = ProgressRecord(
    userId: UserId,
    questionId: QuestionId,
    isCorrect: bool,
    attempts: nat,
    answeredAt: Day,
    lastAttemptedAt: Day)

  /** A row of `user_stats`, the per-user dashboard counters. */
  datatype UserStats = UserStats(
    userId: UserId,
    totalAnswered: nat,
    correctAnswers: nat,
    streak: nat,
    lastActiveAt: Day)

  /** The failures the core reports; a failed call writes nothing. */
  datatype Error =
    | UserNotFound
    | NoLevelsConfigured
    | QuestionNotFound
    | ForeignKeyViolation
    | UniqueViolation

  datatype Result<T> = Ok(value: T) | Err(error: Error)

  /** The key of a progress row: the upsert's conflict target (userId, questionId). */
  type ProgressKey = (UserId, QuestionId)

  /** A progress row stored under `key` describes that pair and has been attempted at least once. */
  predicate RecordWellFormed(key: ProgressKey, rec: ProgressRecord)
  {
    rec.userId == key.0 && rec.questionId == key.1 && rec.attempts >= 1
  }

  /** A stats row stored for `u` counts no more correct answers than answers, and its streak is positive. */
  predicate StatsWellFormed(u: UserId, s: UserStats)
  {
    s.userId == u && s.correctAnswers <= s.totalAnswered && s.streak >= 1
  }

  /** No two rows of the level table share an id (the primary key). */
  predicate DistinctLevelIds(levels: seq<Level>)
  {
    forall i, j :: 0 <= i < j < |levels| ==> levels[i].id != levels[j].id
  }

  /** The lookup of a progress row by its key. */
  function ProgressOf(progress: map<ProgressKey, ProgressRecord>, u: UserId, q: QuestionId): Option<ProgressRecord>
  {
    if (u, q) in progress then Some(progress[(u, q)]) else None
  }

  /** The invariants of a snapshot of the tables. */
  predicate Consistent(
    users: map<UserId, User>,
    levels: seq<Level>,
    questions: map<QuestionId, Question>,
    progress: map<ProgressKey, ProgressRecord>,
    stats: map<UserId, UserStats>)
  {
    && (forall id :: id in users ==> users[id].id == id)
    && (forall a, b :: a in users && b in users && a != b ==> users[a].email != users[b].email)
    && (forall q :: q in questions ==> questions[q].id == q)
    && DistinctLevelIds(levels)
    && (forall k :: k in progress ==> RecordWellFormed(k, progress[k]) && k.0 in users && k.1 in questions)
    && (forall u :: u in stats ==> StatsWellFormed(u, stats[u]))
  }

  /** Replacing a user's row by one with the same id and email keeps the snapshot consistent. */
  lemma {:induction false} ReplaceUserKeepsConsistent(
    users: map<UserId, User>,
    levels: seq<Level>,
    questions: map<QuestionId, Question>,
    progress: map<ProgressKey, ProgressRecord>,
    stats: map<UserId, UserStats>,
    u: User)
    requires Consistent(users, levels, questions, progress, stats)
    requires u.id in users && users[u.id].email == u.email
    ensures Consistent(users[u.id := u], levels, questions, progress, stats)
  {
  }

  /** Storing a well-formed row for an existing user and question keeps the snapshot consistent. */
  lemma {:induction false} PutProgressKeepsConsistent(
    users: map<UserId, User>,
    levels: seq<Level>,
    questions: map<QuestionId, Question>,
    progress: map<ProgressKey, ProgressRecord>,
    stats: map<UserId, UserStats>,
    k: ProgressKey,
    rec: ProgressRecord)
    requires Consistent(users, levels, questions, progress, stats)
    requires RecordWellFormed(k, rec) && k.0 in users && k.1 in questions
    ensures Consistent(users, levels, questions, progress[k := rec], stats)
  {
  }

  /** Storing a well-formed stats row keeps the snapshot consistent. */
  lemma {:induction false} PutStatsKeepsConsistent(
    users: map<UserId, User>,
    levels: seq<Level>,
    questions: map<QuestionId, Question>,
    progress: map<ProgressKey, ProgressRecord>,
    stats: map<UserId, UserStats>,
    u: UserId,
    row: UserStats)
    requires Consistent(users, levels, questions, progress, stats)
    requires StatsWellFormed(u, row)
    ensures Consistent(users, levels, questions, progress, stats[u := row])
  {
  }

  /** The database the repositories and services work on; each service call is one step on it. */
  class Database {
    var users: map<UserId, User>
    var levels: seq<Level>
    var questions: map<QuestionId, Question>
    var progress: map<ProgressKey, ProgressRecord>
    var stats: map<UserId, UserStats>

    /** Primary keys, the unique email column, the progress foreign keys and the counters' invariants. */
    ghost predicate Valid()
      reads this
    {
      Consistent(users, levels, questions, progress, stats)
    }

    /** A database with the given reference data and no users yet. */
    constructor (levels: seq<Level>, questions: map<QuestionId, Question>)
      requires DistinctLevelIds(levels)
      requires forall q :: q in questions ==> questions[q].id == q
      ensures Valid()
      ensures this.levels == levels && this.questions == questions
      ensures users == map[] && progress == map[] && stats == map[]
    {
      this.levels := levels;
      this.questions := questions;
      users, progress, stats := map[], map[], map[];
    }

    /** Adds the row of a user whose id and email are both new. */
    method InsertUser(u: User)
      requires Valid()
      requires u.id !in users && forall v :: v in users ==> users[v].email != u.email
      modifies this
      ensures Valid()
      ensures users == old(users)[u.id := u]
      ensures levels == old(levels) && questions == old(questions)
      ensures progress == old(progress) && stats == old(stats)
    {
      users := users[u.id := u];
    }

    /** Replaces the row of an existing user by one with the same id and email. */
    method PutUser(u: User)
      requires Valid()
      requires u.id in users && users[u.id].email == u.email
      modifies this
      ensures Valid()
      ensures users == old(users)[u.id := u]
      ensures levels == old(levels) && questions == old(questions)
      ensures progress == old(progress) && stats == old(stats)
    {
      ReplaceUserKeepsConsistent(users, levels, questions, progress, stats, u);
      users := users[u.id := u];
    }

    /** Stores a well-formed progress row for an existing user and question. */
    method PutProgress(k: ProgressKey, rec: ProgressRecord)
      requires Valid()
      requires RecordWellFormed(k, rec) && k.0 in users && k.1 in questions
      modifies this
      ensures Valid()
      ensures progress == old(progress)[k := rec]
      ensures users == old(users) && levels == old(levels)
      ensures questions == old(questions) && stats == old(stats)
    {
      PutProgressKeepsConsistent(users, levels, questions, progress, stats, k, rec);
      progress := progress[k := rec];
    }

    /** Puts back a progress table that was consistent with the other tables (a rollback). */
    method RestoreProgress(saved: map<ProgressKey, ProgressRecord>)
      requires Consistent(users, levels, questions, saved, stats)
      modifies this
      ensures Valid()
      ensures progress == saved
      ensures users == old(users) && levels == old(levels)
      ensures questions == old(questions) && stats == old(stats)
    {
      progress := saved;
    }

    /** Stores a well-formed stats row. */
    method PutStats(u: UserId, row: UserStats)
      requires Valid()
      requires StatsWellFormed(u, row)
      modifies this
      ensures Valid()
      ensures stats == old(stats)[u := row]
      ensures users == old(users) && levels == old(levels)
      ensures questions == old(questions) && progress == old(progress)
    {
      PutStatsKeepsConsistent(users, levels, questions, progress, stats, u, row);
      stats := stats[u := row];
    }
  }
}
