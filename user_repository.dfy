/** `UserRepositoryImpl`: lookups, the profile update and the experience award with its level-up loop. */
module UserRepository {
  import opened Common
  import opened Schema
  import opened Leveling

  /** The fields of a sign-up that reach the `users` row. */
  datatype SignUpInput = SignUpInput(name: string, email: string, image: Option<string>)

  /** A partial profile update; `None` means the key is absent from the update object. */
  datatype UpdateUserInput = UpdateUserInput(name: Option<string>, image: Option<string>)

  /** `Object.keys(data).length === 0`. */
  predicate IsEmptyUpdate(data: UpdateUserInput)
  {
    data.name.None? && data.image.None?
  }

  /** The row after `addExp`: the settled experience and the level id at the final index. */
  function Leveled(u: User, levels: seq<Level>, expGained: int, now: Day): (r: User)
    requires levels != []
    ensures r.id == u.id && r.name == u.name && r.email == u.email && r.image == u.image
    ensures r.emailVerified == u.emailVerified && r.updatedAt == now
    ensures var s := Settle(levels, u.currentLevelId, u.currentExp + expGained);
            r.currentExp == s.0 && r.currentLevelId == Some(levels[s.1].id)
    ensures exists k :: 0 <= k < |levels| && r.currentLevelId == Some(levels[k].id)
  {
    var s := Settle(levels, u.currentLevelId, u.currentExp + expGained);
    u.(currentExp := s.0, currentLevelId := Some(levels[s.1].id), updatedAt := now)
  }

  /** The row after a non-empty profile update. */
  function Patched(u: User, data: UpdateUserInput, now: Day): (r: User)
    ensures r.name == (if data.name.Some? then data.name.value else u.name)
    ensures r.image == (if data.image.Some? then data.image else u.image)
    ensures r.updatedAt == now
    ensures r.id == u.id && r.email == u.email && r.emailVerified == u.emailVerified
    ensures r.currentExp == u.currentExp && r.currentLevelId == u.currentLevelId
    ensures IsEmptyUpdate(data) ==> r == u.(updatedAt := now)
  {
    u.(name := if data.name.Some? then data.name.value else u.name,
       image := if data.image.Some? then data.image else u.image,
       updatedAt := now)
  }

  /** `create`: inserts a user under the freshly generated `id`; the email column is unique. */
  method Create(db: Database, id: UserId, data: SignUpInput, now: Day) returns (r: Result<User>)
    requires db.Valid()
    modifies db
    ensures db.Valid()
    ensures db.levels == old(db.levels) && db.questions == old(db.questions)
    ensures db.progress == old(db.progress) && db.stats == old(db.stats)
    ensures (id in old(db.users) || exists v :: v in old(db.users) && old(db.users)[v].email == data.email) ==>
              r == Err(UniqueViolation) && db.users == old(db.users)
    ensures id !in old(db.users) && (forall v :: v in old(db.users) ==> old(db.users)[v].email != data.email) ==>
              r.Ok?
    ensures r.Ok? ==>
              && r.value == User(id, data.name, data.email, false, data.image, 0, None, now)
              && db.users == old(db.users)[id := r.value]
  {
    if id in db.users {
      return Err(UniqueViolation);
    }
    if exists v :: v in db.users && db.users[v].email == data.email {
      return Err(UniqueViolation);
    }
    var user := User(id, data.name, data.email, false, data.image, 0, None, now);
    db.InsertUser(user);
    r := Ok(user);
  }

  /** `findById`: the row with that id, or null. */
  method FindById(db: Database, id: UserId) returns (r: Option<User>)
    requires db.Valid()
    ensures r.Some? <==> id in db.users
    ensures r.Some? ==> r.value == db.users[id] && r.value.id == id
  {
    r := if id in db.users then Some(db.users[id]) else None;
  }

  /** `findByEmail`: the row with that email, or null; emails are unique, so at most one row matches. */
  method FindByEmail(db: Database, email: string) returns (r: Option<User>)
    requires db.Valid()
    ensures r.Some? <==> exists id :: id in db.users && db.users[id].email == email
    ensures r.Some? ==> r.value.email == email && r.value.id in db.users && db.users[r.value.id] == r.value
  {
    if exists id :: id in db.users && db.users[id].email == email {
      var id :| id in db.users && db.users[id].email == email;
      r := Some(db.users[id]);
    } else {
      r := None;
    }
  }

  /**
   * `update`: an empty update writes nothing and returns the current row; otherwise the given
   * fields and `updatedAt` are set on the user's row, which is returned (null when there is none).
   */
  method Update(db: Database, userId: UserId, data: UpdateUserInput, now: Day) returns (r: Option<User>)
    requires db.Valid()
    modifies db
    ensures db.Valid()
    ensures db.levels == old(db.levels) && db.questions == old(db.questions)
    ensures db.progress == old(db.progress) && db.stats == old(db.stats)
    ensures IsEmptyUpdate(data) ==>
              db.users == old(db.users) && r == (if userId in db.users then Some(db.users[userId]) else None)
    ensures !IsEmptyUpdate(data) && userId !in old(db.users) ==> db.users == old(db.users) && r == None
    ensures !IsEmptyUpdate(data) && userId in old(db.users) ==>
              && r == Some(Patched(old(db.users)[userId], data, now))
              && db.users == old(db.users)[userId := r.value]
  {
    if IsEmptyUpdate(data) {
      r := FindById(db, userId);
      return;
    }
    if userId !in db.users {
      return None;
    }
    var updated := Patched(db.users[userId], data, now);
    db.PutUser(updated);
    r := Some(updated);
  }

  /**
   * The body of `addExp` between the reads and the write: find the user's level, run the
   * level-up loop, clamp at the last level. The result is the settled experience and index.
   */
  method LevelUp(allLevels: seq<Level>, currentLevelId: Option<LevelId>, exp: int)
    returns (currentExp: int, currentLevelIndex: nat)
    requires allLevels != []
    ensures (currentExp, currentLevelIndex) == Settle(allLevels, currentLevelId, exp)
    ensures currentLevelIndex < |allLevels|
  {
    currentExp := exp;
    var found := FindIndex(allLevels, currentLevelId);
    currentLevelIndex := if found == -1 then 0 else found;

    ghost var start := currentLevelIndex;
    while currentLevelIndex < |allLevels| - 1 && currentExp >= allLevels[currentLevelIndex].requiredExp
      invariant start <= currentLevelIndex < |allLevels|
      invariant Climb(allLevels, currentLevelIndex, currentExp) == Climb(allLevels, start, exp)
      decreases |allLevels| - currentLevelIndex
    {
      currentExp := currentExp - allLevels[currentLevelIndex].requiredExp;
      currentLevelIndex := currentLevelIndex + 1;
    }

    if currentLevelIndex == |allLevels| - 1 {
      currentExp := Min(currentExp, allLevels[currentLevelIndex].requiredExp);
    }
  }

  /** The end of `addExp`: runs the level-up over the ordered levels and writes the user's new row. */
  method SaveLeveled(db: Database, u: User, allLevels: seq<Level>, expGained: int, now: Day) returns (updated: User)
    requires db.Valid()
    requires u.id in db.users && db.users[u.id] == u && allLevels != []
    modifies db
    ensures db.Valid()
    ensures updated == Leveled(u, allLevels, expGained, now)
    ensures db.users == old(db.users)[u.id := updated]
    ensures db.levels == old(db.levels) && db.questions == old(db.questions)
    ensures db.progress == old(db.progress) && db.stats == old(db.stats)
  {
    var currentExp, currentLevelIndex := LevelUp(allLevels, u.currentLevelId, u.currentExp + expGained);
    var newLevelId := allLevels[currentLevelIndex].id;
    updated := u.(currentExp := currentExp, currentLevelId := Some(newLevelId), updatedAt := now);
    db.PutUser(updated);
  }

  /**
   * `addExp`: adds `expGained` to the user's experience and runs the level-up loop over the
   * levels in ascending order of required experience. Fails, writing nothing, when the user
   * does not exist or no level is configured; otherwise only the user's experience, level id
   * and `updatedAt` change.
   */
  method AddExp(db: Database, userId: UserId, expGained: int, now: Day) returns (r: Result<User>)
    requires db.Valid()
    modifies db
    ensures db.Valid()
    ensures db.levels == old(db.levels) && db.questions == old(db.questions)
    ensures db.progress == old(db.progress) && db.stats == old(db.stats)
    ensures userId !in old(db.users) ==> r == Err(UserNotFound) && db.users == old(db.users)
    ensures userId in old(db.users) && old(db.levels) == [] ==>
              r == Err(NoLevelsConfigured) && db.users == old(db.users)
    ensures userId in old(db.users) && old(db.levels) != [] ==>
              && r == Ok(Leveled(old(db.users)[userId], ByRequiredExp(old(db.levels)), expGained, now))
              && db.users == old(db.users)[userId := r.value]
  {
    if userId !in db.users {
      return Err(UserNotFound);
    }
    var currentUser := db.users[userId];
    var allLevels := ByRequiredExp(db.levels);
    if |allLevels| == 0 {
      assert db.levels == [];
      return Err(NoLevelsConfigured);
    }

    var updatedUser := SaveLeveled(db, currentUser, allLevels, expGained, now);
    r := Ok(updatedUser);
  }
}
