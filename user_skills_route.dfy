/** The user-skills endpoint: the skills the user has placed in their skill
    tree, each marked unlocked when the user's experience covers its cost;
    a user who has placed nothing gets the whole catalog, all locked. */
module UserSkillsRoute {
  import opened Common
  import opened Schema

  /** The whole catalog, in catalog order, every skill locked. */
  function AllLocked(skills: seq<Skill>): (r: seq<SkillView>)
    ensures |r| == |skills|
    ensures forall i :: 0 <= i < |skills| ==>
      && r[i].id == skills[i].id && r[i].name == skills[i].name
      && r[i].experienceNeeded == skills[i].experienceNeeded
      && r[i].imageUrl == ImageOrPlaceholder(skills[i].imageUrl)
      && !r[i].isUnlocked
  {
    if |skills| == 0 then [] else [ViewOf(skills[0], 0).(isUnlocked := false)] + AllLocked(skills[1..])
  }

  /** One view per row, in row order, of the skill the row places. A row
      whose skill is missing yields nothing (the database's foreign key rules
      that out). */
  function PlacedSkills(rows: seq<ConfigRow>, skills: seq<Skill>, experience: int): (r: seq<SkillView>)
    ensures |r| <= |rows|
    ensures forall v :: v in r ==> exists s :: s in skills && v == ViewOf(s, experience)
  {
    if |rows| == 0 then []
    else
      var rest := PlacedSkills(rows[1..], skills, experience);
      match SkillById(skills, rows[0].skillId)
      case None => rest
      case Some(s) => [ViewOf(s, experience)] + rest
  }

  /** When every row's skill exists, there is exactly one view per row, of
      that row's skill, unlocked exactly when the experience covers it. */
  lemma {:induction false} PlacedSkillsComplete(rows: seq<ConfigRow>, skills: seq<Skill>, experience: int)
    requires forall c :: c in rows ==> SkillById(skills, c.skillId).Some?
    ensures |PlacedSkills(rows, skills, experience)| == |rows|
    ensures forall k :: 0 <= k < |rows| ==>
      var v := PlacedSkills(rows, skills, experience)[k];
      && v == ViewOf(SkillById(skills, rows[k].skillId).value, experience)
      && v.id == rows[k].skillId
      && (v.isUnlocked <==> experience >= SkillById(skills, rows[k].skillId).value.experienceNeeded)
  {
    if |rows| > 0 {
      assert forall c :: c in rows[1..] ==> c in rows;
      PlacedSkillsComplete(rows[1..], skills, experience);
      assert rows[0] in rows;
    }
  }

  /** GET. */
  function Get(db: Database, session: Option<string>): (r: Result<seq<SkillView>, Status>)
    reads db
    ensures SessionUser(session).None? ==> r == Err(Unauthorized)
    ensures SessionUser(session).Some? && UserIndex(db.users, session.value) == -1 ==> r == Err(NotFound)
    ensures SessionUser(session).Some? && UserIndex(db.users, session.value) >= 0 ==> r.Ok?
    ensures r.Ok? ==>
      var u := db.users[UserIndex(db.users, session.value)];
      var rows := RowsOf(db.configs, u.id);
      && (|rows| == 0 ==> r.value == AllLocked(db.skills))
      && (|rows| > 0 ==> r.value == PlacedSkills(rows, db.skills, u.experience))
    ensures r.Err? ==> r == Err(Unauthorized) || r == Err(NotFound)
  {
    match SessionUser(session)
    case None => Err(Unauthorized)
    case Some(name) =>
      var i := UserIndex(db.users, name);
      if i == -1 then Err(NotFound)
      else
        var u := db.users[i];
        var rows := RowsOf(db.configs, u.id);
        if |rows| == 0 then Ok(AllLocked(db.skills))
        else Ok(PlacedSkills(rows, db.skills, u.experience))
  }
}
