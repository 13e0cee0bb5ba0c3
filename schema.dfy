/** The records of the relational database the route handlers talk to, the
    database itself as an object whose tables the handlers read and change,
    and the join `findMany({ include: { level: true, skill: true } })`
    produces for one user's skill-tree configuration. */
module Schema {
  import opened Common

  datatype User = User(id: string, username: string, level: int, experience: int)

  datatype Level = Level(id: string, name: string, experienceNeeded: int, newSkillCount: int)

  datatype Skill = Skill(id: string, name: string, experienceNeeded: int, imageUrl: Option<string>)

  /** One placement of a skill in a level for a user, ordered by `position`. */
  datatype ConfigRow = ConfigRow(id: nat, userId: string, levelId: string, skillId: string, position: int)

  /** A configuration row together with the level and skill it refers to. */
  datatype Joined = Joined(row: ConfigRow, level: Level, skill: Skill)

  const Placeholder: string := "/images/skills/placeholder.png"

  /** `skill.imageUrl || '/images/skills/placeholder.png'`. */
  function ImageOrPlaceholder(url: Option<string>): (r: string)
    ensures url.Some? && url.value != "" ==> r == url.value
    ensures url.None? || url.value == "" ==> r == Placeholder
  {
    if url.Some? && url.value != "" then url.value else Placeholder
  }

  /** A skill as the read endpoints report it to a user with `experience`
      points: unlocked when the experience covers its cost. */
  datatype SkillView = SkillView(id: string, name: string, experienceNeeded: int, imageUrl: string, isUnlocked: bool)

  function ViewOf(s: Skill, experience: int): (v: SkillView)
    ensures v.id == s.id && v.name == s.name && v.experienceNeeded == s.experienceNeeded
    ensures v.imageUrl == ImageOrPlaceholder(s.imageUrl)
    ensures v.isUnlocked <==> experience >= s.experienceNeeded
  {
    SkillView(s.id, s.name, s.experienceNeeded, ImageOrPlaceholder(s.imageUrl), experience >= s.experienceNeeded)
  }

  /** The tables. Row order is the order the database returns them in. The
      level order is an input that both handlers share: the handlers sort
      levels differently (by name, by cost), and the model takes whatever
      order the table holds. */
  class Database {
    var users: seq<User>
    var levels: seq<Level>
    var skills: seq<Skill>
    var configs: seq<ConfigRow>
    /** Source of fresh configuration-row ids. */
    var nextConfigId: nat

    constructor (users: seq<User>, levels: seq<Level>, skills: seq<Skill>)
      ensures this.users == users && this.levels == levels && this.skills == skills
      ensures configs == [] && nextConfigId == 0
    {
      this.users := users;
      this.levels := levels;
      this.skills := skills;
      configs := [];
      nextConfigId := 0;
    }

    /** `skillTreeConfig.create`: appends a row under the next fresh id. */
    method CreateConfig(userId: string, levelId: string, skillId: string, position: int) returns (row: ConfigRow)
      modifies this
      ensures row == ConfigRow(old(nextConfigId), userId, levelId, skillId, position)
      ensures configs == old(configs) + [row] && nextConfigId == old(nextConfigId) + 1
      ensures users == old(users) && levels == old(levels) && skills == old(skills)
    {
      row := ConfigRow(nextConfigId, userId, levelId, skillId, position);
      configs := configs + [row];
      nextConfigId := nextConfigId + 1;
    }
  }

  /** `user.findUnique({ where: { username } })`: the index of the user. */
  function UserIndex(users: seq<User>, username: string): (i: int)
    ensures -1 <= i < |users|
    ensures i == -1 <==> forall k :: 0 <= k < |users| ==> users[k].username != username
    ensures i >= 0 ==> users[i].username == username
  {
    FirstIndex(users, (u: User) => u.username == username)
  }

  /** The first level with the given id. */
  function LevelById(levels: seq<Level>, id: string): (r: Option<Level>)
    ensures r.None? <==> forall l :: l in levels ==> l.id != id
    ensures r.Some? ==> r.value in levels && r.value.id == id
  {
    if |levels| == 0 then None
    else if levels[0].id == id then Some(levels[0])
    else LevelById(levels[1..], id)
  }

  /** The first skill with the given id. */
  function SkillById(skills: seq<Skill>, id: string): (r: Option<Skill>)
    ensures r.None? <==> forall s :: s in skills ==> s.id != id
    ensures r.Some? ==> r.value in skills && r.value.id == id
  {
    if |skills| == 0 then None
    else if skills[0].id == id then Some(skills[0])
    else SkillById(skills[1..], id)
  }

  /** The user's configuration rows joined with their level and skill, in
      table order. A row whose level or skill is missing yields nothing
      (the database's foreign keys rule that out). */
  function Join(rows: seq<ConfigRow>, levels: seq<Level>, skills: seq<Skill>, userId: string): (r: seq<Joined>)
    ensures |r| <= |rows|
    ensures forall j :: 0 <= j < |r| ==>
      r[j].row in rows && r[j].row.userId == userId &&
      r[j].level in levels && r[j].level.id == r[j].row.levelId &&
      r[j].skill in skills && r[j].skill.id == r[j].row.skillId
  {
    if |rows| == 0 then []
    else
      var rest := Join(rows[1..], levels, skills, userId);
      var c := rows[0];
      var l := LevelById(levels, c.levelId);
      var s := SkillById(skills, c.skillId);
      if c.userId == userId && l.Some? && s.Some? then [Joined(c, l.value, s.value)] + rest else rest
  }

  /** Every row names a level and a skill that exist. */
  predicate Resolved(rows: seq<ConfigRow>, levels: seq<Level>, skills: seq<Skill>) {
    forall k :: 0 <= k < |rows| ==> LevelById(levels, rows[k].levelId).Some? && SkillById(skills, rows[k].skillId).Some?
  }

  /** Every row of the user whose level and skill exist is joined, in order. */
  lemma {:induction false} JoinComplete(rows: seq<ConfigRow>, levels: seq<Level>, skills: seq<Skill>, userId: string)
    requires Resolved(rows, levels, skills)
    ensures |Join(rows, levels, skills, userId)| == |RowsOf(rows, userId)|
    ensures forall j :: 0 <= j < |RowsOf(rows, userId)| ==> Join(rows, levels, skills, userId)[j].row == RowsOf(rows, userId)[j]
  {
    if |rows| > 0 {
      var c := rows[0];
      assert Resolved(rows[1..], levels, skills) by {
        forall k | 0 <= k < |rows[1..]|
          ensures LevelById(levels, rows[1..][k].levelId).Some? && SkillById(skills, rows[1..][k].skillId).Some?
        {
          assert rows[1..][k] == rows[k + 1];
        }
      }
      JoinComplete(rows[1..], levels, skills, userId);
      var j := Join(rows, levels, skills, userId);
      var jr := Join(rows[1..], levels, skills, userId);
      var o := RowsOf(rows, userId);
      var or := RowsOf(rows[1..], userId);
      if c.userId == userId {
        assert j == [Joined(c, LevelById(levels, c.levelId).value, SkillById(skills, c.skillId).value)] + jr;
        assert o == [c] + or;
        forall k | 0 <= k < |o|
          ensures j[k].row == o[k]
        {
          if k > 0 {
            assert j[k] == jr[k - 1] && o[k] == or[k - 1];
          }
        }
      } else {
        assert j == jr && o == or;
      }
    }
  }

  /** `userSkillTreeConfig.findMany({ where: { userId } })` without the join. */
  function RowsOf(rows: seq<ConfigRow>, userId: string): (r: seq<ConfigRow>)
    ensures |r| <= |rows|
    ensures forall c :: c in r <==> c in rows && c.userId == userId
  {
    if |rows| == 0 then []
    else if rows[0].userId == userId then [rows[0]] + RowsOf(rows[1..], userId)
    else RowsOf(rows[1..], userId)
  }

  /** The rows `deleteMany({ where: { userId } })` leaves behind. */
  function RowsNotOf(rows: seq<ConfigRow>, userId: string): (r: seq<ConfigRow>)
    ensures |r| <= |rows|
    ensures forall c :: c in r <==> c in rows && c.userId != userId
  {
    if |rows| == 0 then []
    else if rows[0].userId != userId then [rows[0]] + RowsNotOf(rows[1..], userId)
    else RowsNotOf(rows[1..], userId)
  }
}
