/**
 * `ProgressRepositoryImpl.recordAttempt`: an insert into `user_progress` that, on a conflict on
 * (userId, questionId), increments `attempts` and ORs the correctness flag into the stored one.
 */
module ProgressRepository {
  import opened Common
  import opened Schema

  /**
   * The row for (u, q) after one attempt, given the row before it (if any). The first attempt
   * creates a row with one attempt and the submitted correctness; a later attempt adds exactly
   * one attempt and can only turn the flag from false to true.
   */
  function Upserted(prev: Option<ProgressRecord>, u: UserId, q: QuestionId, isCorrect: bool, now: Day): (r: ProgressRecord)
    ensures prev.Some? ==> r.attempts == prev.value.attempts + 1
    ensures prev.None? ==> r.attempts == 1 && r.isCorrect == isCorrect
    ensures r.isCorrect <==> isCorrect || (prev.Some? && prev.value.isCorrect)
    ensures prev.Some? && RecordWellFormed((u, q), prev.value) ==> RecordWellFormed((u, q), r)
    ensures prev.None? ==> RecordWellFormed((u, q), r)
    ensures r.answeredAt == now && r.lastAttemptedAt == now
  {
    match prev
    case None => ProgressRecord(u, q, isCorrect, 1, now, now)
    case Some(p) => p.(attempts := p.attempts + 1, isCorrect := p.isCorrect || isCorrect,
                       answeredAt := now, lastAttemptedAt := now)
  }

  /** The row for (u, q) after a sequence of attempts, one per element of `answers`, in order. */
  function Replay(prev: Option<ProgressRecord>, u: UserId, q: QuestionId, answers: seq<bool>, now: Day): Option<ProgressRecord>
    decreases |answers|
  {
    if answers == [] then prev
    else Replay(Some(Upserted(prev, u, q, answers[0], now)), u, q, answers[1..], now)
  }

  /**
   * After any sequence of attempts the row counts every attempt, and it is marked correct
   * exactly when it was correct before or some attempt was correct: once correct, always correct.
   */
  lemma {:induction false} ReplayCountsAttempts(prev: Option<ProgressRecord>, u: UserId, q: QuestionId, answers: seq<bool>, now: Day)
    requires answers != []
    ensures var r := Replay(prev, u, q, answers, now);
      && r.Some?
      && r.value.attempts == (if prev.Some? then prev.value.attempts else 0) + |answers|
      && (r.value.isCorrect <==> (prev.Some? && prev.value.isCorrect) || true in answers)
    decreases |answers|
  {
    var next := Some(Upserted(prev, u, q, answers[0], now));
    if |answers| > 1 {
      ReplayCountsAttempts(next, u, q, answers[1..], now);
      assert answers == [answers[0]] + answers[1..];
    }
  }

  /**
   * `recordAttempt`: upserts the row keyed by (userId, questionId) and returns the row after
   * the upsert. The insert fails on the foreign keys to `users` and `questions`; no other row changes.
   */
  method RecordAttempt(db: Database, userId: UserId, questionId: QuestionId, isCorrect: bool, now: Day)
    returns (r: Result<ProgressRecord>)
    requires db.Valid()
    modifies db
    ensures db.Valid()
    ensures db.users == old(db.users) && db.levels == old(db.levels)
    ensures db.questions == old(db.questions) && db.stats == old(db.stats)
    ensures userId !in old(db.users) || questionId !in old(db.questions) ==>
              r == Err(ForeignKeyViolation) && db.progress == old(db.progress)
    ensures userId in old(db.users) && questionId in old(db.questions) ==>
              && r == Ok(Upserted(ProgressOf(old(db.progress), userId, questionId), userId, questionId, isCorrect, now))
              && db.progress == old(db.progress)[(userId, questionId) := r.value]
  {
    if userId !in db.users || questionId !in db.questions {
      return Err(ForeignKeyViolation);
    }
    var prev := ProgressOf(db.progress, userId, questionId);
    var row := Upserted(prev, userId, questionId, isCorrect, now);
    db.PutProgress((userId, questionId), row);
    r := Ok(row);
  }
}
