/** The progress endpoint. POST adds a positive number of experience points,
    advances the user through every following level whose cost the remaining
    experience covers, stores the new level and experience, and reports the
    cost of the next level and which skills of the current level are unlocked.
    GET reports the same for the stored level and experience. */
module ProgressRoute {
  import opened Common
  import opened LevelNames
  import opened Schema

  /** A skill as the progress endpoint reports it. */
  datatype ProgressSkill = ProgressSkill(id: string, name: string, experienceNeeded: int, imageUrl: string)

  /** The response body; `leveledUp` is only part of POST's answer. */
  datatype Progress = Progress(
    level: int,
    experience: int,
    totalExperienceForNextLevel: int,
    unlockedSkills: seq<ProgressSkill>,
    skillsToUnlock: seq<ProgressSkill>,
    leveledUp: Option<bool>)

  /** The cost the next level falls back to when the catalog has none. */
  const DefaultNextCost: int := 10

  /** `levels.find((level) => level.name === `Level ${n}`)`. */
  function LevelNamed(levels: seq<Level>, n: int): (r: Option<Level>)
    ensures r.None? <==> forall l :: l in levels ==> l.name != LevelName(n)
    ensures r.Some? ==> r.value in levels && r.value.name == LevelName(n)
  {
    if |levels| == 0 then None
    else if levels[0].name == LevelName(n) then Some(levels[0])
    else LevelNamed(levels[1..], n)
  }

  /** The cost of advancing into level `n` (0 when the catalog has no such level). */
  function CostOf(levels: seq<Level>, n: int): (cost: int) {
    match LevelNamed(levels, n)
    case Some(l) => l.experienceNeeded
    case None => 0
  }

  /** The summed cost of advancing from level `from` to level `to`. */
  function CostBetween(levels: seq<Level>, from: int, to: int): (cost: int)
    decreases to - from
  {
    if to <= from then 0 else CostBetween(levels, from, to - 1) + CostOf(levels, to)
  }

  /** The natural numbers below `n`. */
  ghost function Below(n: nat): (r: set<nat>)
    ensures forall i: nat :: i in r <==> i < n
  {
    if n == 0 then {} else Below(n - 1) + {n - 1}
  }

  /** Every level from `from + 1` to `to` exists in the catalog and its cost
      was covered by what was left of `experience` when the loop reached it. */
  ghost predicate Paid(levels: seq<Level>, from: int, experience: int, to: int) {
    forall k :: from < k <= to ==>
      LevelNamed(levels, k).Some? && experience - CostBetween(levels, from, k - 1) >= CostOf(levels, k)
  }

  lemma PaidStep(levels: seq<Level>, from: int, experience: int, to: int)
    requires from <= to && Paid(levels, from, experience, to)
    requires LevelNamed(levels, to + 1).Some?
    requires experience - CostBetween(levels, from, to) >= CostOf(levels, to + 1)
    ensures Paid(levels, from, experience, to + 1)
  {
  }

  /** Every catalog position whose name is not `Level k` for a level `k`
      already passed is still in `remaining`. */
  ghost predicate Unused(levels: seq<Level>, from: int, to: int, remaining: set<nat>) {
    forall i: nat :: i < |levels| ==> NamedBetween(levels[i], from, to) || i in remaining
  }

  ghost predicate NamedBetween(l: Level, from: int, to: int) {
    exists k :: from < k <= to && l.name == LevelName(k)
  }

  /** Advancing into `Level ${to + 1}` uses up the catalog position holding it. */
  lemma UseUp(levels: seq<Level>, from: int, to: int, remaining: set<nat>, j: nat)
    requires from <= to && Unused(levels, from, to, remaining)
    requires j < |levels| && levels[j].name == LevelName(to + 1)
    ensures j in remaining && Unused(levels, from, to + 1, remaining - {j})
  {
    if NamedBetween(levels[j], from, to) {
      var k :| from < k <= to && levels[j].name == LevelName(k);
      LevelNameInjective(k, to + 1);
    }
  }

  /** What the level-up loop keeps: every level passed was paid for, the
      experience paid plus what is left is what it started with, and the
      catalog positions of the levels passed are used up. */
  ghost predicate Climbing(levels: seq<Level>, level: int, experience: int,
                           newLevel: int, newExperience: int, remaining: set<nat>) {
    && newLevel >= level
    && Paid(levels, level, experience, newLevel)
    && experience == newExperience + CostBetween(levels, level, newLevel)
    && (experience >= 0 ==> newExperience >= 0)
    && Unused(levels, level, newLevel, remaining)
  }

  /** One advance into the next level keeps the loop's invariant and uses up
      one catalog position. */
  lemma Advance(levels: seq<Level>, level: int, experience: int,
                newLevel: int, newExperience: int, remaining: set<nat>, j: nat)
    requires Climbing(levels, level, experience, newLevel, newExperience, remaining)
    requires LevelNamed(levels, newLevel + 1).Some?
    requires j < |levels| && levels[j] == LevelNamed(levels, newLevel + 1).value
    requires newExperience >= levels[j].experienceNeeded
    ensures j in remaining
    ensures Climbing(levels, level, experience, newLevel + 1, newExperience - levels[j].experienceNeeded, remaining - {j})
  {
    assert CostOf(levels, newLevel + 1) == levels[j].experienceNeeded;
    UseUp(levels, level, newLevel, remaining, j);
    PaidStep(levels, level, experience, newLevel);
    assert CostBetween(levels, level, newLevel + 1) == CostBetween(levels, level, newLevel) + levels[j].experienceNeeded;
  }

  /** Where a catalog level sits in the catalog. */
  lemma PositionOf(levels: seq<Level>, l: Level) returns (j: nat)
    requires l in levels
    ensures j < |levels| && levels[j] == l
  {
    j :| j < |levels| && levels[j] == l;
  }

  /** The level-up loop of POST, started from the stored `level` and the
      stored experience plus the awarded points. */
  method LevelUp(levels: seq<Level>, level: int, experience: int)
    returns (newLevel: int, newExperience: int, leveledUp: bool)
    ensures newLevel >= level
    ensures leveledUp <==> newLevel > level
    // every level passed exists and was affordable when it was entered
    ensures Paid(levels, level, experience, newLevel)
    // experience is conserved: what is left plus what was paid
    ensures experience == newExperience + CostBetween(levels, level, newLevel)
    // the loop stops exactly when the next level is missing or unaffordable
    ensures LevelNamed(levels, newLevel + 1).None? || newExperience < CostOf(levels, newLevel + 1)
    ensures experience >= 0 ==> newExperience >= 0
  {
    newLevel, newExperience, leveledUp := level, experience, false;
    // catalog positions not yet used up by an advance; each advance uses one
    ghost var remaining: set<nat> := Below(|levels|);
    while true
      invariant leveledUp <==> newLevel > level
      invariant Climbing(levels, level, experience, newLevel, newExperience, remaining)
      decreases |remaining|
    {
      var next := LevelNamed(levels, newLevel + 1);
      if next.None? {
        break;
      }
      if newExperience >= next.value.experienceNeeded {
        ghost var j := PositionOf(levels, next.value);
        Advance(levels, level, experience, newLevel, newExperience, remaining, j);
        remaining := remaining - {j};
        newLevel := newLevel + 1;
        newExperience := newExperience - next.value.experienceNeeded;
        leveledUp := true;
      } else {
        break;
      }
    }
  }

  /** The level of the first configuration row whose level is named `Level ${n}`. */
  function ConfigLevelNamed(configs: seq<Joined>, n: int): (r: Option<Level>)
    ensures r.None? <==> forall c :: c in configs ==> c.level.name != LevelName(n)
    ensures r.Some? ==> r.value.name == LevelName(n) && exists c :: c in configs && c.level == r.value
  {
    if |configs| == 0 then None
    else if configs[0].level.name == LevelName(n) then Some(configs[0].level)
    else ConfigLevelNamed(configs[1..], n)
  }

  /** `totalExperienceForNextLevel` for a user at level `n`: the cost of
      `Level ${n + 1}` as the user's configuration knows it, taken as it is;
      otherwise the catalog's, with 10 when that is missing or 0. */
  function NextLevelCost(configs: seq<Joined>, levels: seq<Level>, n: int): (r: int)
    ensures ConfigLevelNamed(configs, n + 1).Some? ==>
      r == ConfigLevelNamed(configs, n + 1).value.experienceNeeded
    ensures ConfigLevelNamed(configs, n + 1).None? ==> r != 0
    ensures ConfigLevelNamed(configs, n + 1).None? && CostOf(levels, n + 1) != 0 ==> r == CostOf(levels, n + 1)
    ensures ConfigLevelNamed(configs, n + 1).None? && CostOf(levels, n + 1) == 0 ==> r == DefaultNextCost
  {
    var fromConfig := if |configs| > 0 then ConfigLevelNamed(configs, n + 1) else None;
    match fromConfig
    case Some(l) => l.experienceNeeded
    case None =>
      match LevelNamed(levels, n + 1)
      case Some(l) => if l.experienceNeeded != 0 then l.experienceNeeded else DefaultNextCost
      case None => DefaultNextCost
  }

  /** When the configuration's levels are catalog levels, names are unique in
      the catalog and the next level exists with a non-zero cost, the reported
      cost is exactly what the loop needs to advance once more. */
  lemma NextCostIsNextStep(configs: seq<Joined>, levels: seq<Level>, n: int)
    requires forall c :: c in configs ==> c.level in levels
    requires forall i, j :: 0 <= i < j < |levels| ==> levels[i].name != levels[j].name
    requires LevelNamed(levels, n + 1).Some? && CostOf(levels, n + 1) != 0
    ensures NextLevelCost(configs, levels, n) == CostOf(levels, n + 1)
  {
    var fromConfig := ConfigLevelNamed(configs, n + 1);
    if fromConfig.Some? {
      var l := LevelNamed(levels, n + 1).value;
      var c :| c in configs && c.level == fromConfig.value;
      var i :| 0 <= i < |levels| && levels[i] == c.level;
      var j :| 0 <= j < |levels| && levels[j] == l;
    }
  }

  /** `userSkillTreeConfig.filter((config) => config.level.name === `Level ${n}`)`. */
  function AtLevel(configs: seq<Joined>, n: int): (r: seq<Joined>)
    ensures |r| <= |configs|
    ensures forall c :: c in r <==> c in configs && c.level.name == LevelName(n)
  {
    Filter(configs, (c: Joined) => c.level.name == LevelName(n))
  }

  function View(c: Joined): (v: ProgressSkill) {
    ProgressSkill(c.skill.id, c.skill.name, c.skill.experienceNeeded, ImageOrPlaceholder(c.skill.imageUrl))
  }

  function Views(cs: seq<Joined>): (r: seq<ProgressSkill>)
    ensures |r| == |cs|
    ensures forall k :: 0 <= k < |cs| ==> r[k] == View(cs[k])
  {
    if |cs| == 0 then [] else Views(cs[..|cs| - 1]) + [View(cs[|cs| - 1])]
  }

  /** The skills, in order, whose cost `experience` covers. */
  function Unlocked(cs: seq<Joined>, experience: int): (r: seq<ProgressSkill>) {
    if |cs| == 0 then []
    else
      var c := cs[|cs| - 1];
      Unlocked(cs[..|cs| - 1], experience) + (if experience >= c.skill.experienceNeeded then [View(c)] else [])
  }

  /** The skills, in order, whose cost `experience` does not cover. */
  function Locked(cs: seq<Joined>, experience: int): (r: seq<ProgressSkill>) {
    if |cs| == 0 then []
    else
      var c := cs[|cs| - 1];
      Locked(cs[..|cs| - 1], experience) + (if experience >= c.skill.experienceNeeded then [] else [View(c)])
  }

  /** Each skill lands in exactly one of the two lists, on the side its own
      cost decides. */
  lemma {:induction false} PartitionSplits(cs: seq<Joined>, experience: int)
    ensures |Unlocked(cs, experience)| + |Locked(cs, experience)| == |cs|
    ensures multiset(Unlocked(cs, experience)) + multiset(Locked(cs, experience)) == multiset(Views(cs))
    ensures forall s :: s in Unlocked(cs, experience) ==> experience >= s.experienceNeeded
    ensures forall s :: s in Locked(cs, experience) ==> experience < s.experienceNeeded
    ensures Unlocked(cs, experience) == Views(Filter(cs, (c: Joined) => experience >= c.skill.experienceNeeded))
    ensures Locked(cs, experience) == Views(Filter(cs, (c: Joined) => experience < c.skill.experienceNeeded))
  {
    PartitionCounts(cs, experience);
    PartitionSides(cs, experience);
    PartitionInOrder(cs, experience);
  }

  /** Each list is the configuration's rows on its side, in configuration order. */
  lemma PartitionInOrder(cs: seq<Joined>, experience: int)
    ensures Unlocked(cs, experience) == Views(Filter(cs, (c: Joined) => experience >= c.skill.experienceNeeded))
    ensures Locked(cs, experience) == Views(Filter(cs, (c: Joined) => experience < c.skill.experienceNeeded))
  {
    UnlockedInOrder(cs, experience);
    LockedInOrder(cs, experience);
  }

  /** The views of a concatenation are the views of each part. */
  lemma ViewsAppend(a: seq<Joined>, b: seq<Joined>)
    ensures Views(a + b) == Views(a) + Views(b)
  {
    assert forall k :: 0 <= k < |a + b| ==> Views(a + b)[k] == (Views(a) + Views(b))[k];
  }

  /** Filtering one more skill onto the end adds its view, if it passes. */
  lemma ViewsFilterSnoc(pre: seq<Joined>, c: Joined, p: Joined -> bool)
    ensures Views(Filter(pre + [c], p)) == Views(Filter(pre, p)) + (if p(c) then [View(c)] else [])
  {
    var last := if p(c) then [c] else [];
    FilterSnoc(pre, c, p);
    ViewsAppend(Filter(pre, p), last);
    assert Views(last) == (if p(c) then [View(c)] else []);
  }

  lemma {:induction false} UnlockedInOrder(cs: seq<Joined>, experience: int)
    ensures Unlocked(cs, experience) == Views(Filter(cs, (c: Joined) => experience >= c.skill.experienceNeeded))
  {
    if |cs| > 0 {
      var p := (c: Joined) => experience >= c.skill.experienceNeeded;
      var pre, c := cs[..|cs| - 1], cs[|cs| - 1];
      calc {
        Unlocked(cs, experience);
      ==
        Unlocked(pre, experience) + (if p(c) then [View(c)] else []);
      ==  { UnlockedInOrder(pre, experience); }
        Views(Filter(pre, p)) + (if p(c) then [View(c)] else []);
      ==  { ViewsFilterSnoc(pre, c, p); }
        Views(Filter(pre + [c], p));
      ==  { assert cs == pre + [c]; }
        Views(Filter(cs, p));
      }
    }
  }

  lemma {:induction false} LockedInOrder(cs: seq<Joined>, experience: int)
    ensures Locked(cs, experience) == Views(Filter(cs, (c: Joined) => experience < c.skill.experienceNeeded))
  {
    if |cs| > 0 {
      var p := (c: Joined) => experience < c.skill.experienceNeeded;
      var pre, c := cs[..|cs| - 1], cs[|cs| - 1];
      calc {
        Locked(cs, experience);
      ==
        Locked(pre, experience) + (if p(c) then [View(c)] else []);
      ==  { LockedInOrder(pre, experience); }
        Views(Filter(pre, p)) + (if p(c) then [View(c)] else []);
      ==  { ViewsFilterSnoc(pre, c, p); }
        Views(Filter(pre + [c], p));
      ==  { assert cs == pre + [c]; }
        Views(Filter(cs, p));
      }
    }
  }

  lemma {:induction false} PartitionCounts(cs: seq<Joined>, experience: int)
    ensures |Unlocked(cs, experience)| + |Locked(cs, experience)| == |cs|
    ensures multiset(Unlocked(cs, experience)) + multiset(Locked(cs, experience)) == multiset(Views(cs))
  {
    if |cs| > 0 {
      PartitionCounts(cs[..|cs| - 1], experience);
    }
  }

  lemma {:induction false} PartitionSides(cs: seq<Joined>, experience: int)
    ensures forall s :: s in Unlocked(cs, experience) ==> experience >= s.experienceNeeded
    ensures forall s :: s in Locked(cs, experience) ==> experience < s.experienceNeeded
  {
    if |cs| > 0 {
      PartitionSides(cs[..|cs| - 1], experience);
    }
  }

  /** The two `for` loops that fill `unlockedSkills` and `skillsToUnlock`. */
  method Partition(cs: seq<Joined>, experience: int)
    returns (unlocked: seq<ProgressSkill>, locked: seq<ProgressSkill>)
    ensures unlocked == Unlocked(cs, experience)
    ensures locked == Locked(cs, experience)
  {
    unlocked, locked := [], [];
    for i := 0 to |cs|
      invariant unlocked == Unlocked(cs[..i], experience)
      invariant locked == Locked(cs[..i], experience)
    {
      var c := cs[i];
      assert cs[..i + 1][..i] == cs[..i];
      if experience >= c.skill.experienceNeeded {
        unlocked := unlocked + [View(c)];
      } else {
        locked := locked + [View(c)];
      }
    }
    assert cs[..|cs|] == cs;
  }

  /** The experience points of a POST body: a positive number, or the error
      status the handler answers with. */
  function Points(body: Json): (r: Result<int, Status>)
    ensures r.Ok? ==> r.value > 0
    ensures body.JNull? ==> r == Err(InternalError)
    ensures r == Err(BadRequest) <==>
      !body.JNull? && !(body.JObj? && "experiencePoints" in body.fields && body.fields["experiencePoints"].JNum? &&
                      body.fields["experiencePoints"].n > 0)
    ensures (body.JObj? && "experiencePoints" in body.fields && body.fields["experiencePoints"].JNum? &&
             body.fields["experiencePoints"].n > 0) ==> r == Ok(body.fields["experiencePoints"].n)
  {
    match Destructure(body, "experiencePoints")
    case Err(e) => Err(e)
    case Ok(v) =>
      if v.Some? && v.value.JNum? && v.value.n > 0 then Ok(v.value.n) else Err(BadRequest)
  }

  /** GET: the stored level and experience with the next cost and the
      partition of the current level's skills; nothing is written. */
  function Get(db: Database, session: Option<string>): (r: Result<Progress, Status>)
    reads db
    ensures SessionUser(session).None? ==> r == Err(Unauthorized)
    ensures SessionUser(session).Some? && UserIndex(db.users, session.value) == -1 ==> r == Err(NotFound)
    ensures SessionUser(session).Some? && UserIndex(db.users, session.value) >= 0 ==> r.Ok?
    ensures r.Ok? ==>
      var u := db.users[UserIndex(db.users, session.value)];
      var cs := Join(db.configs, db.levels, db.skills, u.id);
      && r.value.level == u.level
      && r.value.experience == u.experience
      && r.value.totalExperienceForNextLevel == NextLevelCost(cs, db.levels, u.level)
      && r.value.unlockedSkills == Unlocked(AtLevel(cs, u.level), u.experience)
      && r.value.skillsToUnlock == Locked(AtLevel(cs, u.level), u.experience)
      && r.value.leveledUp.None?
  {
    match SessionUser(session)
    case None => Err(Unauthorized)
    case Some(name) =>
      var i := UserIndex(db.users, name);
      if i == -1 then Err(NotFound)
      else
        var u := db.users[i];
        var cs := Join(db.configs, db.levels, db.skills, u.id);
        var current := AtLevel(cs, u.level);
        Ok(Progress(u.level, u.experience, NextLevelCost(cs, db.levels, u.level),
                    Unlocked(current, u.experience), Locked(current, u.experience), None))
  }

  /** POST: award positive experience points, level up, store the result. */
  method Post(db: Database, session: Option<string>, body: Json) returns (r: Result<Progress, Status>)
    modifies db
    ensures db.levels == old(db.levels) && db.skills == old(db.skills)
    ensures db.configs == old(db.configs) && db.nextConfigId == old(db.nextConfigId)
    ensures SessionUser(session).None? ==> r == Err(Unauthorized)
    ensures SessionUser(session).Some? && Points(body).Err? ==> r == Err(Points(body).error)
    ensures SessionUser(session).Some? && Points(body).Ok? && UserIndex(old(db.users), session.value) == -1 ==>
      r == Err(NotFound)
    ensures SessionUser(session).Some? && Points(body).Ok? && UserIndex(old(db.users), session.value) >= 0 ==> r.Ok?
    ensures r.Err? ==> db.users == old(db.users)
    ensures r.Ok? ==>
      && SessionUser(session).Some? && Points(body).Ok? && UserIndex(old(db.users), session.value) >= 0
      && Awarded(old(db.users), UserIndex(old(db.users), session.value), Points(body).value,
                 db.levels, db.skills, db.configs, db.users, r.value)
  {
    var name := SessionUser(session);
    if name.None? {
      return Err(Unauthorized);
    }
    var points := Points(body);
    if points.Err? {
      return Err(points.error);
    }
    var i := UserIndex(db.users, name.value);
    if i == -1 {
      return Err(NotFound);
    }
    var progress := ApplyPoints(db, i, points.value);
    r := Ok(progress);
  }

  /** What awarding `points` to the user at `i` of `users` leaves behind:
      only that user's level and experience change, to the values answered;
      every level passed exists and was affordable when it was entered; the
      experience paid plus what is left is the old experience plus `points`;
      the climb stopped at the first missing or unaffordable level; and the
      answer's next cost and skill split are computed from the new level and
      experience. */
  ghost predicate Awarded(users: seq<User>, i: int, points: int, levels: seq<Level>, skills: seq<Skill>,
                          configs: seq<ConfigRow>, after: seq<User>, progress: Progress) {
    && 0 <= i < |users|
    && var u := users[i];
    var cs := Join(configs, levels, skills, u.id);
    && after == users[i := u.(level := progress.level, experience := progress.experience)]
    && progress.level >= u.level
    && progress.leveledUp == Some(progress.level > u.level)
    && Paid(levels, u.level, u.experience + points, progress.level)
    && u.experience + points == progress.experience + CostBetween(levels, u.level, progress.level)
    && (LevelNamed(levels, progress.level + 1).None? || progress.experience < CostOf(levels, progress.level + 1))
    && (u.experience >= 0 && points >= 0 ==> progress.experience >= 0)
    && progress.totalExperienceForNextLevel == NextLevelCost(cs, levels, progress.level)
    && progress.unlockedSkills == Unlocked(AtLevel(cs, progress.level), progress.experience)
    && progress.skillsToUnlock == Locked(AtLevel(cs, progress.level), progress.experience)
  }

  /** The success path of POST for the user at `i`: the level-up loop on the
      stored experience plus `points`, the update of the user's row, and the
      answer computed from the new level and experience. */
  method ApplyPoints(db: Database, i: int, points: int) returns (progress: Progress)
    requires 0 <= i < |db.users| && points > 0
    modifies db
    ensures db.levels == old(db.levels) && db.skills == old(db.skills)
    ensures db.configs == old(db.configs) && db.nextConfigId == old(db.nextConfigId)
    ensures Awarded(old(db.users), i, points, db.levels, db.skills, db.configs, db.users, progress)
  {
    var u := db.users[i];
    var levels := db.levels;
    var cs := Join(db.configs, levels, db.skills, u.id);
    var newLevel, newExperience, leveledUp := LevelUp(levels, u.level, u.experience + points);
    var unlocked, locked := Partition(AtLevel(cs, newLevel), newExperience);
    progress := Progress(newLevel, newExperience, NextLevelCost(cs, levels, newLevel),
                         unlocked, locked, Some(leveledUp));
    db.users := db.users[i := u.(level := newLevel, experience := newExperience)];
  }

}
