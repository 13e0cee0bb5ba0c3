/** The JSON-file store: one file per table (users, levels, skills,
    sessions, skill-tree configuration rows), each holding an array of
    records. Every operation reads the whole file, changes the array and
    writes it back. A file that cannot be read or parsed reads as the empty
    array. Fresh ids and the current time are parameters. */
module JsonDb {
  import opened Common

  datatype User = User(id: string, username: string, level: int, experience: int,
                       createdAt: Option<int>, updatedAt: Option<int>)

  datatype Level = Level(id: string, name: string, experienceNeeded: int, newSkillCount: int)

  datatype Skill = Skill(id: string, name: string, experienceNeeded: int, emoji: string)

  datatype Session = Session(id: string, userId: string, expiresAt: int)

  datatype Config = Config(id: string, userId: string, levelId: string, skillId: string, position: int)

  /** The fields `update` may overwrite; `None` leaves a field as it is. */
  datatype UserPatch = UserPatch(id: Option<string>, username: Option<string>, level: Option<int>,
                                 experience: Option<int>, createdAt: Option<int>)

  datatype LevelPatch = LevelPatch(id: Option<string>, name: Option<string>, experienceNeeded: Option<int>,
                                   newSkillCount: Option<int>)

  datatype SkillPatch = SkillPatch(id: Option<string>, name: Option<string>, experienceNeeded: Option<int>,
                                   emoji: Option<string>)

  /** One level of the regrouped skill-tree configuration. */
  datatype TreeLevel = TreeLevel(id: string, name: string, skills: seq<string>)

  datatype SkillTreeConfig = SkillTreeConfig(username: string, levels: seq<TreeLevel>)

  /** A table file: an array of records, or content that cannot be read or parsed. */
  datatype Stored<T> = Rows(rows: seq<T>) | Unreadable

  /** The "… with id … not found" error `update` and `delete` throw. */
  datatype NotFoundError = NotFoundError(table: string, id: string)

  /** `readData`: the file's records, or none when it cannot be read. */
  function ReadData<T>(file: Stored<T>): (r: seq<T>)
    ensures file.Unreadable? ==> r == []
    ensures file.Rows? ==> r == file.rows
  {
    match file
    case Rows(rows) => rows
    case Unreadable => []
  }

  function UserId(u: User): (id: string) { u.id }
  function LevelId(l: Level): (id: string) { l.id }
  function SkillId(s: Skill): (id: string) { s.id }
  function SessionId(s: Session): (id: string) { s.id }

  /** `findIndex(record => record.id === id)`. */
  function IndexOf<T>(rows: seq<T>, key: T -> string, id: string): (i: int)
    ensures -1 <= i < |rows|
    ensures i == -1 <==> forall j :: 0 <= j < |rows| ==> key(rows[j]) != id
    ensures i >= 0 ==> key(rows[i]) == id && forall j :: 0 <= j < i ==> key(rows[j]) != id
  {
    FirstIndex(rows, (x: T) => key(x) == id)
  }

  // ---- lookups ------------------------------------------------------------

  /** `userDb.findUnique` matches a user on an id or username that is given
      and non-empty. */
  predicate UserMatches(u: User, whereId: Option<string>, whereUsername: Option<string>) {
    (whereId.Some? && whereId.value != "" && u.id == whereId.value) ||
    (whereUsername.Some? && whereUsername.value != "" && u.username == whereUsername.value)
  }

  /** `userDb.findUnique`: the first matching user, or null. */
  function FindUniqueUser(users: seq<User>, whereId: Option<string>, whereUsername: Option<string>): (r: Option<User>)
    ensures r.None? <==> forall i :: 0 <= i < |users| ==> !UserMatches(users[i], whereId, whereUsername)
    ensures r.Some? ==> exists i :: 0 <= i < |users| && users[i] == r.value &&
                          UserMatches(users[i], whereId, whereUsername) &&
                          forall j :: 0 <= j < i ==> !UserMatches(users[j], whereId, whereUsername)
    ensures (whereId.None? || whereId.value == "") && (whereUsername.None? || whereUsername.value == "") ==> r.None?
  {
    if |users| == 0 then None
    else if UserMatches(users[0], whereId, whereUsername) then Some(users[0])
    else
      var r := FindUniqueUser(users[1..], whereId, whereUsername);
      assert forall i :: 0 < i < |users| ==> users[i] == users[1..][i - 1];
      r
  }

  /** `levelDb.findFirst`: the first level with the given non-empty name. */
  function FindFirstLevel(levels: seq<Level>, name: Option<string>): (r: Option<Level>)
    ensures r.None? <==> name.None? || name.value == "" || forall i :: 0 <= i < |levels| ==> levels[i].name != name.value
    ensures r.Some? ==> exists i :: 0 <= i < |levels| && levels[i] == r.value && r.value.name == name.value &&
                          forall j :: 0 <= j < i ==> levels[j].name != name.value
  {
    if name.None? || name.value == "" || |levels| == 0 then None
    else if levels[0].name == name.value then Some(levels[0])
    else
      var r := FindFirstLevel(levels[1..], name);
      assert forall i :: 0 < i < |levels| ==> levels[i] == levels[1..][i - 1];
      r
  }

  /** `skillDb.findFirst`: the first skill with the given non-empty name. */
  function FindFirstSkill(skills: seq<Skill>, name: Option<string>): (r: Option<Skill>)
    ensures r.None? <==> name.None? || name.value == "" || forall i :: 0 <= i < |skills| ==> skills[i].name != name.value
    ensures r.Some? ==> exists i :: 0 <= i < |skills| && skills[i] == r.value && r.value.name == name.value &&
                          forall j :: 0 <= j < i ==> skills[j].name != name.value
  {
    if name.None? || name.value == "" || |skills| == 0 then None
    else if skills[0].name == name.value then Some(skills[0])
    else
      var r := FindFirstSkill(skills[1..], name);
      assert forall i :: 0 < i < |skills| ==> skills[i] == skills[1..][i - 1];
      r
  }

  /** `sessionDb.findUnique`: the first session with the id (no emptiness test). */
  function FindUniqueSession(sessions: seq<Session>, id: string): (r: Option<Session>)
    ensures r.None? <==> forall i :: 0 <= i < |sessions| ==> sessions[i].id != id
    ensures r.Some? ==> r.value.id == id && r.value == sessions[IndexOf(sessions, SessionId, id)]
  {
    var i := IndexOf(sessions, SessionId, id);
    if i == -1 then None else Some(sessions[i])
  }

  /** `sessionDb.findMany`: the sessions of `userId` when it is given and
      non-empty, all sessions otherwise; order is kept. */
  function FindManySessions(sessions: seq<Session>, userId: Option<string>): (r: seq<Session>)
    ensures userId.None? || userId.value == "" ==> r == sessions
    ensures userId.Some? && userId.value != "" ==>
      forall s :: s in r <==> s in sessions && s.userId == userId.value
    ensures userId.Some? && userId.value != "" ==> r == Filter(sessions, (s: Session) => s.userId == userId.value)
    ensures |r| <= |sessions|
  {
    if userId.None? || userId.value == "" || |sessions| == 0 then sessions
    else
      var rest := FindManySessions(sessions[1..], userId);
      assert sessions == [sessions[0]] + sessions[1..];
      if sessions[0].userId == userId.value then [sessions[0]] + rest else rest
  }

  // ---- record updates -------------------------------------------------------

  /** `{ ...user, ...patch, updatedAt: now }`. */
  function MergeUser(u: User, p: UserPatch, now: int): (r: User)
    ensures r.id == (if p.id.Some? then p.id.value else u.id)
    ensures r.username == (if p.username.Some? then p.username.value else u.username)
    ensures r.level == (if p.level.Some? then p.level.value else u.level)
    ensures r.experience == (if p.experience.Some? then p.experience.value else u.experience)
    ensures r.createdAt == (if p.createdAt.Some? then p.createdAt else u.createdAt)
    ensures r.updatedAt == Some(now)
    ensures p == UserPatch(None, None, None, None, None) ==> r == u.(updatedAt := Some(now))
  {
    User(if p.id.Some? then p.id.value else u.id,
         if p.username.Some? then p.username.value else u.username,
         if p.level.Some? then p.level.value else u.level,
         if p.experience.Some? then p.experience.value else u.experience,
         if p.createdAt.Some? then p.createdAt else u.createdAt,
         Some(now))
  }

  /** `{ ...level, ...patch }`. */
  function MergeLevel(l: Level, p: LevelPatch): (r: Level)
    ensures r.id == (if p.id.Some? then p.id.value else l.id)
    ensures r.name == (if p.name.Some? then p.name.value else l.name)
    ensures r.experienceNeeded == (if p.experienceNeeded.Some? then p.experienceNeeded.value else l.experienceNeeded)
    ensures r.newSkillCount == (if p.newSkillCount.Some? then p.newSkillCount.value else l.newSkillCount)
    ensures p == LevelPatch(None, None, None, None) ==> r == l
  {
    Level(if p.id.Some? then p.id.value else l.id,
          if p.name.Some? then p.name.value else l.name,
          if p.experienceNeeded.Some? then p.experienceNeeded.value else l.experienceNeeded,
          if p.newSkillCount.Some? then p.newSkillCount.value else l.newSkillCount)
  }

  /** `{ ...skill, ...patch }`. */
  function MergeSkill(s: Skill, p: SkillPatch): (r: Skill)
    ensures r.id == (if p.id.Some? then p.id.value else s.id)
    ensures r.name == (if p.name.Some? then p.name.value else s.name)
    ensures r.experienceNeeded == (if p.experienceNeeded.Some? then p.experienceNeeded.value else s.experienceNeeded)
    ensures r.emoji == (if p.emoji.Some? then p.emoji.value else s.emoji)
    ensures p == SkillPatch(None, None, None, None) ==> r == s
  {
    Skill(if p.id.Some? then p.id.value else s.id,
          if p.name.Some? then p.name.value else s.name,
          if p.experienceNeeded.Some? then p.experienceNeeded.value else s.experienceNeeded,
          if p.emoji.Some? then p.emoji.value else s.emoji)
  }

  /** A fresh id keeps the ids of a table distinct. */
  predicate DistinctIds<T>(rows: seq<T>, key: T -> string) {
    forall i, j :: 0 <= i < j < |rows| ==> key(rows[i]) != key(rows[j])
  }

  lemma CreateKeepsIdsDistinct<T>(rows: seq<T>, key: T -> string, x: T)
    requires DistinctIds(rows, key)
    requires forall j :: 0 <= j < |rows| ==> key(rows[j]) != key(x)
    ensures DistinctIds(rows + [x], key)
  {
  }

  /** With distinct ids, deleting by id leaves no record with that id. */
  lemma {:induction false} DeleteRemovesTheId<T>(rows: seq<T>, key: T -> string, id: string)
    requires DistinctIds(rows, key)
    requires IndexOf(rows, key, id) >= 0
    ensures forall j :: 0 <= j < |RemoveAt(rows, IndexOf(rows, key, id))| ==>
      key(RemoveAt(rows, IndexOf(rows, key, id))[j]) != id
    ensures DistinctIds(RemoveAt(rows, IndexOf(rows, key, id)), key)
  {
    var i := IndexOf(rows, key, id);
    var r := RemoveAt(rows, i);
    forall j | 0 <= j < |r|
      ensures key(r[j]) != id
    {
      if j < i {
        assert r[j] == rows[j];
      } else {
        assert r[j] == rows[j + 1];
        assert key(rows[i]) != key(rows[j + 1]);
      }
    }
  }

  // ---- the skill-tree configuration regrouping --------------------------

  /** The skill ids of the configuration rows for `levelId`, in row order. */
  function SkillIdsFor(cs: seq<Config>, levelId: string): (r: seq<string>)
    ensures |r| <= |cs|
    ensures forall s :: s in r <==> exists c :: c in cs && c.levelId == levelId && c.skillId == s
  {
    if |cs| == 0 then []
    else
      var rest := SkillIdsFor(cs[..|cs| - 1], levelId);
      var c := cs[|cs| - 1];
      assert cs == cs[..|cs| - 1] + [c];
      if c.levelId == levelId then rest + [c.skillId] else rest
  }

  /** A level's skill ids are the ids of the rows placed in it, in row order. */
  lemma {:induction false} SkillIdsInOrder(cs: seq<Config>, levelId: string)
    ensures SkillIdsFor(cs, levelId) == MapSeq(Filter(cs, (c: Config) => c.levelId == levelId), (c: Config) => c.skillId)
  {
    if |cs| > 0 {
      var pre, c := cs[..|cs| - 1], cs[|cs| - 1];
      SkillIdsInOrder(pre, levelId);
      assert cs == pre + [c];
      FilterSnoc(pre, c, (c: Config) => c.levelId == levelId);
    }
  }

  /** The rows of one user, in row order. */
  function ConfigsOf(cs: seq<Config>, userId: string): (r: seq<Config>)
    ensures |r| <= |cs|
    ensures forall c :: c in r <==> c in cs && c.userId == userId
    ensures r == Filter(cs, (c: Config) => c.userId == userId)
  {
    if |cs| == 0 then []
    else
      var rest := ConfigsOf(cs[1..], userId);
      assert cs == [cs[0]] + cs[1..];
      if cs[0].userId == userId then [cs[0]] + rest else rest
  }

  /** One entry per catalog level, in catalog order, with the skills the
      user placed in it. */
  function Regroup(levels: seq<Level>, cs: seq<Config>): (r: seq<TreeLevel>)
    ensures |r| == |levels|
    ensures forall i :: 0 <= i < |levels| ==>
      r[i].id == levels[i].id && r[i].name == levels[i].name && r[i].skills == SkillIdsFor(cs, levels[i].id)
  {
    if |levels| == 0 then []
    else
      var n := |levels| - 1;
      Regroup(levels[..n], cs) + [TreeLevel(levels[n].id, levels[n].name, SkillIdsFor(cs, levels[n].id))]
  }

  /** A row placed in a catalog level shows up in that level's entry. */
  lemma RegroupComplete(levels: seq<Level>, cs: seq<Config>, c: Config, i: int)
    requires c in cs && 0 <= i < |levels| && levels[i].id == c.levelId
    ensures c.skillId in Regroup(levels, cs)[i].skills
  {
  }

  lemma {:induction false} NothingPlaced(cs: seq<Config>, levelId: string)
    requires forall c :: c in cs ==> c.levelId != levelId
    ensures SkillIdsFor(cs, levelId) == []
  {
    if |cs| > 0 {
      assert cs == cs[..|cs| - 1] + [cs[|cs| - 1]];
      NothingPlaced(cs[..|cs| - 1], levelId);
    }
  }

  /** The first loop of `findUnique`: a map from each level id that occurs
      in `cs` to the skill ids placed in it, in row order. */
  method GroupByLevel(cs: seq<Config>) returns (levelMap: map<string, seq<string>>)
    ensures forall l :: l in levelMap <==> exists c :: c in cs && c.levelId == l
    ensures forall l :: l in levelMap ==> levelMap[l] == SkillIdsFor(cs, l)
  {
    levelMap := map[];
    for k := 0 to |cs|
      invariant forall l :: l in levelMap <==> exists c :: c in cs[..k] && c.levelId == l
      invariant forall l :: l in levelMap ==> levelMap[l] == SkillIdsFor(cs[..k], l)
    {
      var c := cs[k];
      assert cs[..k + 1] == cs[..k] + [c];
      assert cs[..k + 1][..k] == cs[..k];
      if c.levelId !in levelMap {
        NothingPlaced(cs[..k], c.levelId);
        levelMap := levelMap[c.levelId := []];
      }
      levelMap := levelMap[c.levelId := levelMap[c.levelId] + [c.skillId]];
    }
    assert cs[..|cs|] == cs;
  }

  /** The second loop of `findUnique`: one entry per catalog level, with the
      level's skills from the map, or none when the level is not in it. */
  method LevelsOf(levels: seq<Level>, levelMap: map<string, seq<string>>, cs: seq<Config>) returns (result: seq<TreeLevel>)
    requires forall l :: l in levelMap <==> exists c :: c in cs && c.levelId == l
    requires forall l :: l in levelMap ==> levelMap[l] == SkillIdsFor(cs, l)
    ensures result == Regroup(levels, cs)
  {
    result := [];
    for k := 0 to |levels|
      invariant result == Regroup(levels[..k], cs)
    {
      var skills := if levels[k].id in levelMap then levelMap[levels[k].id] else [];
      if levels[k].id !in levelMap {
        NothingPlaced(cs, levels[k].id);
      }
      assert levels[..k + 1][..k] == levels[..k];
      result := result + [TreeLevel(levels[k].id, levels[k].name, skills)];
    }
    assert levels[..|levels|] == levels;
  }

  /** The tables. Each operation changes at most the file it works on. */
  class Store {
    var usersFile: Stored<User>
    var levelsFile: Stored<Level>
    var skillsFile: Stored<Skill>
    var sessionsFile: Stored<Session>
    var configsFile: Stored<Config>

    constructor (users: Stored<User>, levels: Stored<Level>, skills: Stored<Skill>,
                 sessions: Stored<Session>, configs: Stored<Config>)
      ensures usersFile == users && levelsFile == levels && skillsFile == skills
      ensures sessionsFile == sessions && configsFile == configs
    {
      usersFile := users;
      levelsFile := levels;
      skillsFile := skills;
      sessionsFile := sessions;
      configsFile := configs;
    }

    // ---- users --------------------------------------------------------

    /** `userDb.create`: append the new user with the fresh id and both
        timestamps set to now. */
    method UserCreate(username: string, level: int, experience: int, id: string, now: int) returns (u: User)
      modifies this`usersFile
      ensures u == User(id, username, level, experience, Some(now), Some(now))
      ensures usersFile == Rows(ReadData(old(usersFile)) + [u])
    {
      var users := ReadData(usersFile);
      u := User(id, username, level, experience, Some(now), Some(now));
      users := users + [u];
      usersFile := Rows(users);
    }

    /** `userDb.update`: merge the patch into the first user with the id and
        stamp it; throw, writing nothing, when there is none. */
    method UserUpdate(id: string, patch: UserPatch, now: int) returns (r: Result<User, NotFoundError>)
      modifies this`usersFile
      ensures var users := ReadData(old(usersFile));
              var i := IndexOf(users, UserId, id);
        && (i == -1 ==> r == Err(NotFoundError("User", id)) && usersFile == old(usersFile))
        && (i >= 0 ==> r == Ok(MergeUser(users[i], patch, now)) && usersFile == Rows(users[i := r.value]))
    {
      var users := ReadData(usersFile);
      var i := IndexOf(users, UserId, id);
      if i == -1 {
        return Err(NotFoundError("User", id));
      }
      users := users[i := MergeUser(users[i], patch, now)];
      usersFile := Rows(users);
      r := Ok(users[i]);
    }

    /** `userDb.delete`: remove the first user with the id and return it;
        throw, writing nothing, when there is none. */
    method UserDelete(id: string) returns (r: Result<User, NotFoundError>)
      modifies this`usersFile
      ensures var users := ReadData(old(usersFile));
              var i := IndexOf(users, UserId, id);
        && (i == -1 ==> r == Err(NotFoundError("User", id)) && usersFile == old(usersFile))
        && (i >= 0 ==> r == Ok(users[i]) && usersFile == Rows(RemoveAt(users, i)))
    {
      var users := ReadData(usersFile);
      var i := IndexOf(users, UserId, id);
      if i == -1 {
        return Err(NotFoundError("User", id));
      }
      r := Ok(users[i]);
      usersFile := Rows(RemoveAt(users, i));
    }

    /** `userDb.upsert`: update the user found by username, or create one
        when there is none; exactly one of the two happens, and it never
        throws. */
    method UserUpsert(username: string, patch: UserPatch, create: (string, int, int), id: string, now: int)
      returns (u: User)
      modifies this`usersFile
      ensures var users := ReadData(old(usersFile));
              var found := FindUniqueUser(users, None, Some(username));
        && (found.Some? ==>
              var i := IndexOf(users, UserId, found.value.id);
              0 <= i && u == MergeUser(users[i], patch, now) && usersFile == Rows(users[i := u]))
        && (found.None? ==>
              u == User(id, create.0, create.1, create.2, Some(now), Some(now)) &&
              usersFile == Rows(users + [u]))
    {
      var users := ReadData(usersFile);
      var found := FindUniqueUser(users, None, Some(username));
      if found.Some? {
        assert found.value in users;
        var r := UserUpdate(found.value.id, patch, now);
        u := r.value;
      } else {
        u := UserCreate(create.0, create.1, create.2, id, now);
      }
    }

    // ---- levels -------------------------------------------------------

    /** `levelDb.create`. */
    method LevelCreate(name: string, experienceNeeded: int, newSkillCount: int, id: string) returns (l: Level)
      modifies this`levelsFile
      ensures l == Level(id, name, experienceNeeded, newSkillCount)
      ensures levelsFile == Rows(ReadData(old(levelsFile)) + [l])
    {
      l := Level(id, name, experienceNeeded, newSkillCount);
      levelsFile := Rows(ReadData(levelsFile) + [l]);
    }

    /** `levelDb.update`. */
    method LevelUpdate(id: string, patch: LevelPatch) returns (r: Result<Level, NotFoundError>)
      modifies this`levelsFile
      ensures var levels := ReadData(old(levelsFile));
              var i := IndexOf(levels, LevelId, id);
        && (i == -1 ==> r == Err(NotFoundError("Level", id)) && levelsFile == old(levelsFile))
        && (i >= 0 ==> r == Ok(MergeLevel(levels[i], patch)) && levelsFile == Rows(levels[i := r.value]))
    {
      var levels := ReadData(levelsFile);
      var i := IndexOf(levels, LevelId, id);
      if i == -1 {
        return Err(NotFoundError("Level", id));
      }
      levels := levels[i := MergeLevel(levels[i], patch)];
      levelsFile := Rows(levels);
      r := Ok(levels[i]);
    }

    /** `levelDb.delete`. */
    method LevelDelete(id: string) returns (r: Result<Level, NotFoundError>)
      modifies this`levelsFile
      ensures var levels := ReadData(old(levelsFile));
              var i := IndexOf(levels, LevelId, id);
        && (i == -1 ==> r == Err(NotFoundError("Level", id)) && levelsFile == old(levelsFile))
        && (i >= 0 ==> r == Ok(levels[i]) && levelsFile == Rows(RemoveAt(levels, i)))
    {
      var levels := ReadData(levelsFile);
      var i := IndexOf(levels, LevelId, id);
      if i == -1 {
        return Err(NotFoundError("Level", id));
      }
      r := Ok(levels[i]);
      levelsFile := Rows(RemoveAt(levels, i));
    }

    // ---- skills -------------------------------------------------------

    /** `skillDb.create`. */
    method SkillCreate(name: string, experienceNeeded: int, emoji: string, id: string) returns (s: Skill)
      modifies this`skillsFile
      ensures s == Skill(id, name, experienceNeeded, emoji)
      ensures skillsFile == Rows(ReadData(old(skillsFile)) + [s])
    {
      s := Skill(id, name, experienceNeeded, emoji);
      skillsFile := Rows(ReadData(skillsFile) + [s]);
    }

    /** `skillDb.update`. */
    method SkillUpdate(id: string, patch: SkillPatch) returns (r: Result<Skill, NotFoundError>)
      modifies this`skillsFile
      ensures var skills := ReadData(old(skillsFile));
              var i := IndexOf(skills, SkillId, id);
        && (i == -1 ==> r == Err(NotFoundError("Skill", id)) && skillsFile == old(skillsFile))
        && (i >= 0 ==> r == Ok(MergeSkill(skills[i], patch)) && skillsFile == Rows(skills[i := r.value]))
    {
      var skills := ReadData(skillsFile);
      var i := IndexOf(skills, SkillId, id);
      if i == -1 {
        return Err(NotFoundError("Skill", id));
      }
      skills := skills[i := MergeSkill(skills[i], patch)];
      skillsFile := Rows(skills);
      r := Ok(skills[i]);
    }

    /** `skillDb.delete`. */
    method SkillDelete(id: string) returns (r: Result<Skill, NotFoundError>)
      modifies this`skillsFile
      ensures var skills := ReadData(old(skillsFile));
              var i := IndexOf(skills, SkillId, id);
        && (i == -1 ==> r == Err(NotFoundError("Skill", id)) && skillsFile == old(skillsFile))
        && (i >= 0 ==> r == Ok(skills[i]) && skillsFile == Rows(RemoveAt(skills, i)))
    {
      var skills := ReadData(skillsFile);
      var i := IndexOf(skills, SkillId, id);
      if i == -1 {
        return Err(NotFoundError("Skill", id));
      }
      r := Ok(skills[i]);
      skillsFile := Rows(RemoveAt(skills, i));
    }

    // ---- sessions -----------------------------------------------------

    /** `sessionDb.create`. */
    method SessionCreate(userId: string, expiresAt: int, id: string) returns (s: Session)
      modifies this`sessionsFile
      ensures s == Session(id, userId, expiresAt)
      ensures sessionsFile == Rows(ReadData(old(sessionsFile)) + [s])
    {
      s := Session(id, userId, expiresAt);
      sessionsFile := Rows(ReadData(sessionsFile) + [s]);
    }

    /** `sessionDb.delete`. */
    method SessionDelete(id: string) returns (r: Result<Session, NotFoundError>)
      modifies this`sessionsFile
      ensures var sessions := ReadData(old(sessionsFile));
              var i := IndexOf(sessions, SessionId, id);
        && (i == -1 ==> r == Err(NotFoundError("Session", id)) && sessionsFile == old(sessionsFile))
        && (i >= 0 ==> r == Ok(sessions[i]) && sessionsFile == Rows(RemoveAt(sessions, i)))
    {
      var sessions := ReadData(sessionsFile);
      var i := IndexOf(sessions, SessionId, id);
      if i == -1 {
        return Err(NotFoundError("Session", id));
      }
      r := Ok(sessions[i]);
      sessionsFile := Rows(RemoveAt(sessions, i));
    }

    // ---- skill-tree configuration ---------------------------------------

    /** `skillTreeConfigDb.findUnique`: null when the configuration file
        cannot be read, the user is unknown or has no rows; otherwise one
        entry per catalog level with the user's skill ids for it. */
    method SkillTreeConfigFindUnique(username: string) returns (r: Option<SkillTreeConfig>)
      ensures configsFile.Unreadable? ==> r.None?
      ensures var user := FindUniqueUser(ReadData(usersFile), None, Some(username));
        && (user.None? ==> r.None?)
        && (configsFile.Rows? && user.Some? ==>
              var mine := ConfigsOf(configsFile.rows, user.value.id);
              && (|mine| == 0 ==> r.None?)
              && (|mine| > 0 ==> r == Some(SkillTreeConfig(username, Regroup(ReadData(levelsFile), mine)))))
    {
      if configsFile.Unreadable? {
        return None;
      }
      var configs := configsFile.rows;
      var user := FindUniqueUser(ReadData(usersFile), None, Some(username));
      if user.None? {
        return None;
      }
      var mine := ConfigsOf(configs, user.value.id);
      if |mine| == 0 {
        return None;
      }
      var levelMap := GroupByLevel(mine);
      var result := LevelsOf(ReadData(levelsFile), levelMap, mine);
      r := Some(SkillTreeConfig(username, result));
    }
  }
}
