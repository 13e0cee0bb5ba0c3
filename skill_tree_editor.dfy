/** The skill-tree editor page's list logic. The editor holds the levels,
    each with its capacity `newSkillCount` and an ordered list of skills, and
    the ordered list of unassigned skills. Dropping a dragged skill reorders
    it within its list or moves it to another list, refusing to overfill a
    level; a skill can be sent back from a level to the unassigned list; and
    the levels flatten into the configuration that is saved. */
module SkillTreeEditor {
  import opened Common

  datatype Skill = Skill(id: string, name: string, experienceNeeded: int, emoji: string, isUnlocked: bool)

  datatype Level = Level(id: string, name: string, experienceNeeded: int, newSkillCount: int, skills: seq<Skill>)

  /** The list a skill sits in: `"unassigned"` or `"level-<id>"`. */
  datatype Container = Unassigned | InLevel(levelId: string)

  /** One entry of the saved configuration. */
  datatype SaveEntry = SaveEntry(levelId: string, skillId: string, position: nat)

  // ---- list operations ------------------------------------------------------

  /** `levels.findIndex(level => level.id === id)`. */
  function LevelIndex(levels: seq<Level>, id: string): (i: int)
    ensures -1 <= i < |levels|
    ensures i == -1 <==> forall j :: 0 <= j < |levels| ==> levels[j].id != id
    ensures i >= 0 ==> levels[i].id == id && forall j :: 0 <= j < i ==> levels[j].id != id
  {
    FirstIndex(levels, (l: Level) => l.id == id)
  }

  /** `skills.findIndex(s => s.id === id)`. */
  function SkillIndex(skills: seq<Skill>, id: string): (i: int)
    ensures -1 <= i < |skills|
    ensures i == -1 <==> forall j :: 0 <= j < |skills| ==> skills[j].id != id
    ensures i >= 0 ==> skills[i].id == id && forall j :: 0 <= j < i ==> skills[j].id != id
  {
    FirstIndex(skills, (s: Skill) => s.id == id)
  }

  /** `skills.filter(s => s.id !== id)`. */
  function Without(skills: seq<Skill>, id: string): (r: seq<Skill>)
    ensures |r| <= |skills|
    ensures forall s :: s in r <==> s in skills && s.id != id
    ensures multiset(r) <= multiset(skills)
  {
    if |skills| == 0 then []
    else
      assert skills == [skills[0]] + skills[1..];
      (if skills[0].id != id then [skills[0]] else []) + Without(skills[1..], id)
  }

  /** No two skills of the list share an id. */
  predicate UniqueIds(skills: seq<Skill>) {
    forall i, j :: 0 <= i < j < |skills| ==> skills[i].id != skills[j].id
  }

  lemma WithoutCons(x: Skill, s: seq<Skill>, id: string)
    ensures Without([x] + s, id) == (if x.id != id then [x] else []) + Without(s, id)
  {
    assert ([x] + s)[0] == x && ([x] + s)[1..] == s;
  }

  /** A unique list stays unique without its head. */
  lemma UniqueTail(skills: seq<Skill>)
    requires |skills| > 0 && UniqueIds(skills)
    ensures UniqueIds(skills[1..])
    ensures forall j :: 0 <= j < |skills| - 1 ==> skills[1..][j].id != skills[0].id
  {
    var rest := skills[1..];
    forall a, b | 0 <= a < b < |rest| ensures rest[a].id != rest[b].id {
      assert rest[a] == skills[a + 1] && rest[b] == skills[b + 1];
    }
    forall j | 0 <= j < |rest| ensures rest[j].id != skills[0].id {
      assert rest[j] == skills[j + 1];
    }
  }

  /** When the id occurs once, the filter removes exactly that one skill. */
  lemma {:induction false} WithoutUnique(skills: seq<Skill>, i: nat)
    requires i < |skills| && UniqueIds(skills)
    ensures Without(skills, skills[i].id) == RemoveAt(skills, i)
    ensures multiset(Without(skills, skills[i].id)) + multiset{skills[i]} == multiset(skills)
  {
    var id := skills[i].id;
    var rest := skills[1..];
    UniqueTail(skills);
    assert skills == [skills[0]] + rest;
    WithoutCons(skills[0], rest, id);
    if i == 0 {
      WithoutAbsent(rest, id);
      assert RemoveAt(skills, 0) == rest;
    } else {
      assert rest[i - 1] == skills[i];
      WithoutUnique(rest, i - 1);
      RemoveAtCons(skills, i);
    }
  }

  lemma RemoveAtCons(s: seq<Skill>, i: nat)
    requires 0 < i < |s|
    ensures RemoveAt(s, i) == [s[0]] + RemoveAt(s[1..], i - 1)
  {
  }

  /** Filtering out an id the list holds shortens it. */
  lemma {:induction false} WithoutShrinks(skills: seq<Skill>, k: nat)
    requires k < |skills|
    ensures |Without(skills, skills[k].id)| < |skills|
  {
    if k > 0 {
      assert skills[1..][k - 1] == skills[k];
      WithoutShrinks(skills[1..], k - 1);
    }
  }

  lemma {:induction false} WithoutAbsent(skills: seq<Skill>, id: string)
    requires forall j :: 0 <= j < |skills| ==> skills[j].id != id
    ensures Without(skills, id) == skills
  {
    if |skills| > 0 {
      WithoutAbsent(skills[1..], id);
      assert skills == [skills[0]] + skills[1..];
    }
  }

  /** Insert `x` at `index`, or append it when `index` is -1 or past the end. */
  function PlaceAt(skills: seq<Skill>, index: int, x: Skill): (r: seq<Skill>)
    ensures |r| == |skills| + 1
    ensures multiset(r) == multiset(skills) + multiset{x}
    ensures index == -1 || index >= |skills| ==> r == skills + [x]
    ensures 0 <= index < |skills| ==>
      r[index] == x && r[..index] == skills[..index] && r[index + 1..] == skills[index..]
  {
    if index == -1 || index >= |skills| || index < 0 then skills + [x]
    else
      assert skills == skills[..index] + skills[index..];
      skills[..index] + [x] + skills[index..]
  }

  /** `splice(start, 0, x)` for `start >= 0`: a start past the end appends. */
  function Splice(skills: seq<Skill>, start: nat, x: Skill): (r: seq<Skill>)
    ensures |r| == |skills| + 1
    ensures multiset(r) == multiset(skills) + multiset{x}
    ensures r[Min(start, |skills|)] == x
    ensures r[..Min(start, |skills|)] == skills[..Min(start, |skills|)]
    ensures r[Min(start, |skills|) + 1..] == skills[Min(start, |skills|)..]
  {
    var k := Min(start, |skills|);
    assert skills == skills[..k] + skills[k..];
    skills[..k] + [x] + skills[k..]
  }

  /** Putting an element back where it was taken out restores the list. */
  lemma SpliceUndoesRemove(s: seq<Skill>, i: nat)
    requires i < |s|
    ensures Splice(RemoveAt(s, i), i, s[i]) == s
  {
    var rest := RemoveAt(s, i);
    var r := Splice(rest, i, s[i]);
    assert Min(i, |rest|) == i;
    forall k | 0 <= k < |s|
      ensures r[k] == s[k]
    {
      if k < i {
        assert r[k] == r[..i][k] == rest[..i][k] == rest[k];
      } else if k > i {
        assert r[k] == r[i + 1..][k - i - 1] == rest[i..][k - i - 1] == rest[k - 1];
      }
    }
  }

  /** `arrayMove(list, from, to)`: take out the element at `from` and put it
      back at `to`, or at the end when `to` is past it. */
  function ArrayMove(s: seq<Skill>, from: nat, to: nat): (r: seq<Skill>)
    requires from < |s|
    ensures |r| == |s|
    ensures multiset(r) == multiset(s)
    ensures r[Min(to, |s| - 1)] == s[from]
    ensures from == to ==> r == s
  {
    var rest := RemoveAt(s, from);
    var r := Splice(rest, to, s[from]);
    assert from == to ==> r == s by {
      if from == to {
        SpliceUndoesRemove(s, from);
      }
    }
    r
  }

  // ---- all the skills the editor holds ----------------------------------------

  /** The skills held by the levels, counted with multiplicity. */
  function InLevels(levels: seq<Level>): (m: multiset<Skill>) {
    if |levels| == 0 then multiset{} else InLevels(levels[..|levels| - 1]) + multiset(levels[|levels| - 1].skills)
  }

  /** Replacing one level's skills changes the count by exactly that list. */
  lemma {:induction false} InLevelsUpdate(levels: seq<Level>, i: nat, ns: seq<Skill>)
    requires i < |levels|
    ensures InLevels(levels[i := levels[i].(skills := ns)]) + multiset(levels[i].skills) == InLevels(levels) + multiset(ns)
  {
    var n := |levels| - 1;
    if i < n {
      InLevelsUpdate(levels[..n], i, ns);
      InLevelsUpdateBefore(levels, i, ns);
    } else {
      var updated := levels[i := levels[i].(skills := ns)];
      assert updated[..n] == levels[..n];
    }
  }

  /** The step for a level before the last: the last level is untouched. */
  lemma InLevelsUpdateBefore(levels: seq<Level>, i: nat, ns: seq<Skill>)
    requires i < |levels| - 1
    requires var front := levels[..|levels| - 1];
      InLevels(front[i := front[i].(skills := ns)]) + multiset(front[i].skills) == InLevels(front) + multiset(ns)
    ensures InLevels(levels[i := levels[i].(skills := ns)]) + multiset(levels[i].skills) == InLevels(levels) + multiset(ns)
  {
    var n := |levels| - 1;
    var updated := levels[i := levels[i].(skills := ns)];
    assert updated[..n] == levels[..n][i := levels[i].(skills := ns)];
    assert updated[n] == levels[n];
    Extended(InLevels(updated[..n]), multiset(levels[i].skills), InLevels(levels[..n]), multiset(ns),
             multiset(levels[n].skills));
  }

  /** Multiset bookkeeping for a move: `taken` leaves one list and joins another. */
  lemma Rebalance<T>(after: multiset<T>, mid: multiset<T>, before: multiset<T>, source: multiset<T>,
                     removed: multiset<T>, target: multiset<T>, placed: multiset<T>, taken: multiset<T>)
    requires mid + source == before + removed && removed + taken == source
    requires after + target == mid + placed && placed == target + taken
    ensures after == before
  {
    forall x
      ensures after[x] == before[x]
    {
      assert (after + target)[x] == (mid + placed)[x];
      assert (mid + source)[x] == (before + removed)[x];
      assert (removed + taken)[x] == source[x];
      assert placed[x] == (target + taken)[x];
    }
  }

  lemma Shifted<T>(a: multiset<T>, x: multiset<T>, b: multiset<T>, y: multiset<T>, u: multiset<T>)
    requires a + x == b + y
    ensures u + a + x == u + b + y
  {
    forall e
      ensures (u + a + x)[e] == (u + b + y)[e]
    {
      assert (a + x)[e] == (b + y)[e];
    }
  }

  lemma Extended<T>(a: multiset<T>, x: multiset<T>, b: multiset<T>, y: multiset<T>, u: multiset<T>)
    requires a + x == b + y
    ensures a + u + x == b + u + y
  {
    forall e
      ensures (a + u + x)[e] == (b + u + y)[e]
    {
      assert (a + x)[e] == (b + y)[e];
    }
  }

  lemma Cancel<T>(a: multiset<T>, x: multiset<T>, b: multiset<T>)
    requires a + x == b + x
    ensures a == b
  {
    forall e
      ensures a[e] == b[e]
    {
      assert (a + x)[e] == (b + x)[e];
    }
  }

  // ---- the save configuration and the item map -------------------------------

  /** One save entry per skill of the level, positions 0, 1, … in order. */
  function LevelEntries(l: Level): (r: seq<SaveEntry>)
    ensures |r| == |l.skills|
    ensures forall j :: 0 <= j < |r| ==> r[j] == SaveEntry(l.id, l.skills[j].id, j)
  {
    seq(|l.skills|, j requires 0 <= j < |l.skills| => SaveEntry(l.id, l.skills[j].id, j))
  }

  /** The number of skills held by the levels. */
  function TotalSkills(levels: seq<Level>): (n: nat) {
    if |levels| == 0 then 0 else TotalSkills(levels[..|levels| - 1]) + |levels[|levels| - 1].skills|
  }

  /** Where level `i`'s entries start in the flattened configuration. */
  function Offset(levels: seq<Level>, i: nat): (k: nat)
    requires i <= |levels|
  {
    TotalSkills(levels[..i])
  }

  /** `levels.flatMap(level => level.skills.map((skill, index) => …))`. */
  function SaveConfig(levels: seq<Level>): (r: seq<SaveEntry>)
    ensures |r| == TotalSkills(levels)
  {
    if |levels| == 0 then [] else SaveConfig(levels[..|levels| - 1]) + LevelEntries(levels[|levels| - 1])
  }

  /** Level `i`'s skill `j` is saved at `Offset(i) + j` with position `j`:
      every level in order, dense positions per level. */
  lemma {:induction false} SaveConfigLayout(levels: seq<Level>, i: nat, j: nat)
    requires i < |levels| && j < |levels[i].skills|
    ensures Offset(levels, i) + j < |SaveConfig(levels)|
    ensures SaveConfig(levels)[Offset(levels, i) + j] == SaveEntry(levels[i].id, levels[i].skills[j].id, j)
  {
    var n := |levels| - 1;
    assert levels[..n + 1] == levels;
    if i == n {
      assert levels[..i] == levels[..n];
    } else {
      assert levels[..n][..i] == levels[..i];
      assert levels[..n][i] == levels[i];
      SaveConfigLayout(levels[..n], i, j);
      assert TotalSkills(levels[..i]) + j < TotalSkills(levels[..n]) by {
        OffsetGrows(levels[..n], i);
      }
    }
  }

  lemma {:induction false} OffsetGrows(levels: seq<Level>, i: nat)
    requires i < |levels|
    ensures TotalSkills(levels[..i]) + |levels[i].skills| <= TotalSkills(levels)
  {
    var n := |levels| - 1;
    assert levels[..n + 1] == levels;
    if i < n {
      assert levels[..n][..i] == levels[..i];
      OffsetGrows(levels[..n], i);
    } else {
      assert levels[..i] == levels[..n];
    }
  }

  /** The POST body `handleSaveSkillTree` sends, or none when there is
      nothing to save. */
  function SaveRequest(levels: seq<Level>): (r: Option<seq<SaveEntry>>)
    ensures r.None? <==> TotalSkills(levels) == 0
    ensures r.Some? ==> r.value == SaveConfig(levels)
  {
    var config := SaveConfig(levels);
    if |config| == 0 then None else Some(config)
  }

  /** Whether level `l` holds a skill with the id. */
  predicate Holds(l: Level, id: string) {
    exists k :: 0 <= k < |l.skills| && l.skills[k].id == id
  }

  /** The ids in a list of skills. */
  function Ids(skills: seq<Skill>): (r: set<string>)
    ensures forall id :: id in r <==> exists k :: 0 <= k < |skills| && skills[k].id == id
  {
    set k | 0 <= k < |skills| :: skills[k].id
  }

  /** The level entries of the item map, written level by level over `m`. */
  function MapLevels(m: map<string, Container>, levels: seq<Level>): (r: map<string, Container>)
    ensures forall id :: id in r <==> id in m || exists i :: 0 <= i < |levels| && Holds(levels[i], id)
    ensures forall id :: id in r && (forall i :: 0 <= i < |levels| ==> !Holds(levels[i], id)) ==> r[id] == m[id]
  {
    if |levels| == 0 then m
    else
      var n := |levels| - 1;
      var before := MapLevels(m, levels[..n]);
      var l := levels[n];
      MapLevelsStep(m, levels, before);
      before + map id | id in Ids(l.skills) :: InLevel(l.id)
  }

  /** The recursive step of `MapLevels`: entries for the last level's skills
      written over the map built from the levels before it. */
  lemma MapLevelsStep(m: map<string, Container>, levels: seq<Level>, before: map<string, Container>)
    requires |levels| > 0
    requires var n := |levels| - 1;
      forall id :: id in before <==> id in m || exists i :: 0 <= i < n && Holds(levels[..n][i], id)
    requires var n := |levels| - 1;
      forall id :: id in before && (forall i :: 0 <= i < n ==> !Holds(levels[..n][i], id)) ==> before[id] == m[id]
    ensures var l := levels[|levels| - 1];
      var r := before + map id | id in Ids(l.skills) :: InLevel(l.id);
      && (forall id :: id in r <==> id in m || exists i :: 0 <= i < |levels| && Holds(levels[i], id))
      && (forall id :: id in r && (forall i :: 0 <= i < |levels| ==> !Holds(levels[i], id)) ==> r[id] == m[id])
  {
    HeldSnoc(levels);
  }

  /** An id is held by some level exactly when it is held by one of the
      levels before the last or by the last. */
  lemma HeldSnoc(levels: seq<Level>)
    requires |levels| > 0
    ensures var n := |levels| - 1;
      forall id ::
        && ((exists i :: 0 <= i < |levels| && Holds(levels[i], id)) <==>
              (exists i :: 0 <= i < n && Holds(levels[..n][i], id)) || id in Ids(levels[n].skills))
        && ((forall i :: 0 <= i < |levels| ==> !Holds(levels[i], id)) ==>
              (forall i :: 0 <= i < n ==> !Holds(levels[..n][i], id)) && id !in Ids(levels[n].skills))
  {
    var n := |levels| - 1;
    forall id
      ensures (exists i :: 0 <= i < |levels| && Holds(levels[i], id)) <==>
              (exists i :: 0 <= i < n && Holds(levels[..n][i], id)) || id in Ids(levels[n].skills)
    {
      if i :| 0 <= i < |levels| && Holds(levels[i], id) {
        if i < n {
          assert levels[..n][i] == levels[i];
        }
      }
      if i :| 0 <= i < n && Holds(levels[..n][i], id) {
        assert levels[..n][i] == levels[i];
      }
    }
  }

  /** The item map: every unassigned skill to `"unassigned"`, then every
      level skill to its level, so a later level overrides an earlier one and
      any level overrides the unassigned list. */
  function ItemsMap(unassigned: seq<Skill>, levels: seq<Level>): (r: map<string, Container>)
    ensures forall id :: id in r <==> id in Ids(unassigned) || exists i :: 0 <= i < |levels| && Holds(levels[i], id)
    ensures forall id :: id in r && (forall i :: 0 <= i < |levels| ==> !Holds(levels[i], id)) ==> r[id] == Unassigned
  {
    MapLevels(map id | id in Ids(unassigned) :: Unassigned, levels)
  }

  /** A skill in level `i` and in no later level maps to level `i`. */
  lemma {:induction false} ItemsMapLastLevelWins(m: map<string, Container>, levels: seq<Level>, i: nat, id: string)
    requires i < |levels| && Holds(levels[i], id)
    requires forall j :: i < j < |levels| ==> !Holds(levels[j], id)
    ensures id in MapLevels(m, levels) && MapLevels(m, levels)[id] == InLevel(levels[i].id)
  {
    var n := |levels| - 1;
    if i < n {
      assert levels[..n][i] == levels[i];
      assert forall j :: i < j < n ==> levels[..n][j] == levels[j];
      ItemsMapLastLevelWins(m, levels[..n], i, id);
      MapLevelsKeeps(m, levels, id);
    } else {
      MapLevelsAdds(m, levels, id);
    }
  }

  /** The last level's skills map to that level. */
  lemma MapLevelsAdds(m: map<string, Container>, levels: seq<Level>, id: string)
    requires |levels| > 0 && Holds(levels[|levels| - 1], id)
    ensures id in MapLevels(m, levels) && MapLevels(m, levels)[id] == InLevel(levels[|levels| - 1].id)
  {
    assert id in Ids(levels[|levels| - 1].skills);
  }

  /** An id the last level does not hold keeps its entry from the levels before. */
  lemma MapLevelsKeeps(m: map<string, Container>, levels: seq<Level>, id: string)
    requires |levels| > 0 && !Holds(levels[|levels| - 1], id) && id in MapLevels(m, levels[..|levels| - 1])
    ensures id in MapLevels(m, levels) && MapLevels(m, levels)[id] == MapLevels(m, levels[..|levels| - 1])[id]
  {
    assert id !in Ids(levels[|levels| - 1].skills);
  }

  // ---- a drop on the board ---------------------------------------------------

  /** The editor's lists: the levels and the unassigned skills. */
  datatype Board = Board(levels: seq<Level>, unassigned: seq<Skill>)

  /** What a drop leaves: the new lists, the error it raises, and whether the
      auto-save is scheduled. */
  datatype Drop = Drop(board: Board, error: Option<string>, autoSave: bool)

  /** Whether the container names a list on the board. */
  predicate Resolves(b: Board, c: Container) {
    c.Unassigned? || LevelIndex(b.levels, c.levelId) >= 0
  }

  /** The skills of a container; none for a level that does not exist. */
  function SkillsOf(b: Board, c: Container): (r: seq<Skill>)
    ensures c.Unassigned? ==> r == b.unassigned
    ensures c.InLevel? && Resolves(b, c) ==> r == b.levels[LevelIndex(b.levels, c.levelId)].skills
    ensures !Resolves(b, c) ==> r == []
  {
    match c
    case Unassigned => b.unassigned
    case InLevel(id) =>
      var i := LevelIndex(b.levels, id);
      if i == -1 then [] else b.levels[i].skills
  }

  /** The board with the container's list replaced (unchanged when the
      container does not resolve). */
  function WithSkills(b: Board, c: Container, s: seq<Skill>): (r: Board) {
    match c
    case Unassigned => b.(unassigned := s)
    case InLevel(id) =>
      var i := LevelIndex(b.levels, id);
      if i == -1 then b else b.(levels := b.levels[i := b.levels[i].(skills := s)])
  }

  /** Every skill on the board, with multiplicity. */
  function Everything(b: Board): (m: multiset<Skill>) {
    multiset(b.unassigned) + InLevels(b.levels)
  }

  /** The level list keeps its ids, names, costs and capacities. */
  predicate SameShape(b: Board, after: Board) {
    && |after.levels| == |b.levels|
    && forall i :: 0 <= i < |b.levels| ==>
      && after.levels[i].id == b.levels[i].id && after.levels[i].name == b.levels[i].name
      && after.levels[i].experienceNeeded == b.levels[i].experienceNeeded
      && after.levels[i].newSkillCount == b.levels[i].newSkillCount
  }

  /** No level ends above the larger of its old size and its capacity. */
  predicate WithinCapacity(b: Board, after: Board)
    requires |after.levels| == |b.levels|
  {
    forall i :: 0 <= i < |b.levels| ==>
      |after.levels[i].skills| <= Max(|b.levels[i].skills|, b.levels[i].newSkillCount)
  }

  /** Replacing one list changes that list only, and the board's contents
      by exactly the difference. */
  lemma WithSkillsEffect(b: Board, c: Container, s: seq<Skill>)
    requires Resolves(b, c)
    ensures var after := WithSkills(b, c, s);
      && SameShape(b, after)
      && SkillsOf(after, c) == s
      && (forall d :: d != c ==> SkillsOf(after, d) == SkillsOf(b, d))
      && Everything(after) + multiset(SkillsOf(b, c)) == Everything(b) + multiset(s)
      && (forall i :: 0 <= i < |b.levels| && (c.Unassigned? || i != LevelIndex(b.levels, c.levelId)) ==>
            after.levels[i] == b.levels[i])
  {
    if c.InLevel? {
      WithSkillsInLevel(b, c.levelId, s);
    }
  }

  /** Appending a skill to the unassigned list adds it to the board once. */
  lemma EverythingAppend(b: Board, skill: Skill)
    ensures Everything(b.(unassigned := b.unassigned + [skill])) == Everything(b) + multiset{skill}
  {
    assert multiset(b.unassigned + [skill]) == multiset(b.unassigned) + multiset{skill};
  }

  /** The list facts of `WithSkillsEffect` alone. */
  lemma WithSkillsLists(b: Board, c: Container, s: seq<Skill>)
    requires Resolves(b, c)
    ensures var after := WithSkills(b, c, s);
      && SameShape(b, after)
      && SkillsOf(after, c) == s
      && (forall d :: d != c ==> SkillsOf(after, d) == SkillsOf(b, d))
  {
    WithSkillsEffect(b, c, s);
  }

  /** The contents fact of `WithSkillsEffect` alone, for a level. */
  lemma WithSkillsContents(b: Board, c: Container, s: seq<Skill>)
    requires c.InLevel? && Resolves(b, c)
    ensures var after := WithSkills(b, c, s);
      && after.unassigned == b.unassigned
      && Everything(after) + multiset(SkillsOf(b, c)) == Everything(b) + multiset(s)
  {
    WithSkillsEffect(b, c, s);
  }

  lemma WithSkillsInLevel(b: Board, id: string, s: seq<Skill>)
    requires LevelIndex(b.levels, id) >= 0
    ensures var c: Container := InLevel(id);
      var after := WithSkills(b, c, s);
      && SameShape(b, after)
      && SkillsOf(after, c) == s
      && (forall d :: d != c ==> SkillsOf(after, d) == SkillsOf(b, d))
      && Everything(after) + multiset(SkillsOf(b, c)) == Everything(b) + multiset(s)
      && (forall i :: 0 <= i < |b.levels| && i != LevelIndex(b.levels, id) ==> after.levels[i] == b.levels[i])
  {
    var c: Container := InLevel(id);
    var i := LevelIndex(b.levels, id);
    var levels := b.levels[i := b.levels[i].(skills := s)];
    var after := b.(levels := levels);
    assert WithSkills(b, c, s) == after;
    assert SkillsOf(b, c) == b.levels[i].skills;
    forall other
      ensures LevelIndex(levels, other) == LevelIndex(b.levels, other)
    {
      LevelIndexSameIds(b.levels, levels, other);
    }
    assert SkillsOf(after, c) == s;
    forall d: Container | d != c
      ensures SkillsOf(after, d) == SkillsOf(b, d)
    {
      if d.InLevel? {
        var j := LevelIndex(b.levels, d.levelId);
        assert LevelIndex(levels, d.levelId) == j;
        if j >= 0 {
          assert b.levels[j].id != b.levels[i].id;
          assert levels[j] == b.levels[j];
        }
      }
    }
    assert SameShape(b, after) by {
      forall k | 0 <= k < |b.levels|
        ensures levels[k].id == b.levels[k].id && levels[k].name == b.levels[k].name
        ensures levels[k].experienceNeeded == b.levels[k].experienceNeeded
        ensures levels[k].newSkillCount == b.levels[k].newSkillCount
      {
      }
    }
    InLevelsUpdate(b.levels, i, s);
    Shifted(InLevels(levels), multiset(b.levels[i].skills), InLevels(b.levels), multiset(s), multiset(b.unassigned));
  }

  /** `findIndex` by id sees only the ids. */
  lemma {:induction false} LevelIndexSameIds(xs: seq<Level>, ys: seq<Level>, id: string)
    requires |xs| == |ys| && forall i :: 0 <= i < |xs| ==> xs[i].id == ys[i].id
    ensures LevelIndex(xs, id) == LevelIndex(ys, id)
  {
    var i := LevelIndex(xs, id);
    var j := LevelIndex(ys, id);
    if i >= 0 && j >= 0 {
      assert !(i < j) && !(j < i);
    }
  }

  /** The same-container drop: `arrayMove` within the list, nothing when the
      drop has no index. */
  function Within(b: Board, c: Container, from: nat, overIndex: int): (r: Board)
    requires from < |SkillsOf(b, c)| && overIndex >= -1
  {
    if overIndex == -1 then b else WithSkills(b, c, ArrayMove(SkillsOf(b, c), from, overIndex))
  }

  /** The same-container drop keeps every list's length and the board's
      contents, and puts the dragged skill at the drop index (or last). */
  lemma WithinEffect(b: Board, c: Container, from: nat, overIndex: int)
    requires from < |SkillsOf(b, c)| && overIndex >= -1
    ensures var r := Within(b, c, from, overIndex);
      && SameShape(b, r)
      && (forall i :: 0 <= i < |b.levels| ==> |r.levels[i].skills| == |b.levels[i].skills|)
      && |r.unassigned| == |b.unassigned|
      && Everything(r) == Everything(b)
      && (overIndex == -1 ==> r == b)
      && (overIndex >= 0 ==>
            && |SkillsOf(r, c)| == |SkillsOf(b, c)|
            && SkillsOf(r, c)[Min(overIndex, |SkillsOf(b, c)| - 1)] == SkillsOf(b, c)[from])
      && (forall d :: d != c ==> SkillsOf(r, d) == SkillsOf(b, d))
  {
    if overIndex >= 0 {
      var moved := ArrayMove(SkillsOf(b, c), from, overIndex);
      WithSkillsEffect(b, c, moved);
      var r := WithSkills(b, c, moved);
      if c.InLevel? {
        var li := LevelIndex(b.levels, c.levelId);
        assert r.levels[li].skills == moved;
      }
      Cancel(Everything(r), multiset(moved), Everything(b));
    }
  }

  /** The error shown when the target level is full. */
  function FullMessage(levelName: string): (s: string) {
    "Level " + levelName + " is full. Remove a skill first."
  }

  /** Whether the drop target is a level at or above its capacity. */
  predicate TargetFull(b: Board, dst: Container) {
    && dst.InLevel?
    && LevelIndex(b.levels, dst.levelId) >= 0
    && |b.levels[LevelIndex(b.levels, dst.levelId)].skills| >= b.levels[LevelIndex(b.levels, dst.levelId)].newSkillCount
  }

  /** The cross-container drop: the skill is filtered out of its source
      list, then inserted into the target list; a full target level refuses
      it with an error, the unassigned source ending as its pre-drag list
      plus the skill and a level source getting the skill spliced back at
      its old index. An unknown target level drops the skill. */
  function Across(b: Board, src: Container, dst: Container, id: string, from: nat, overIndex: int): (r: Drop)
    requires src != dst && from < |SkillsOf(b, src)|
    ensures r.autoSave <==> r.error.None?
    ensures r.error.Some? <==> TargetFull(b, dst)
    ensures TargetFull(b, dst) ==> r.error == Some(FullMessage(b.levels[LevelIndex(b.levels, dst.levelId)].name))
  {
    var source := SkillsOf(b, src);
    var skill := source[from];
    var taken := WithSkills(b, src, Without(source, id));
    match dst
    case Unassigned =>
      Drop(taken.(unassigned := PlaceAt(b.unassigned, overIndex, skill)), None, true)
    case InLevel(levelId) =>
      var t := LevelIndex(b.levels, levelId);
      if t == -1 then Drop(taken, None, true)
      else if TargetFull(b, dst) then
        var back := if src.Unassigned? then b.(unassigned := b.unassigned + [skill])
                    else WithSkills(b, src, Splice(Without(source, id), from, skill));
        Drop(back, Some(FullMessage(b.levels[t].name)), false)
      else
        Drop(WithSkills(taken, dst, PlaceAt(b.levels[t].skills, overIndex, skill)), None, true)
  }

  /** Replacing a list by one no longer than the level's old size or
      capacity keeps the board within capacity. */
  lemma WithSkillsCapacity(b: Board, c: Container, s: seq<Skill>)
    requires Resolves(b, c)
    requires c.InLevel? ==>
      |s| <= Max(|SkillsOf(b, c)|, b.levels[LevelIndex(b.levels, c.levelId)].newSkillCount)
    ensures SameShape(b, WithSkills(b, c, s)) && WithinCapacity(b, WithSkills(b, c, s))
  {
    WithSkillsEffect(b, c, s);
  }

  lemma CapacityTransitive(b: Board, m: Board, r: Board)
    requires SameShape(b, m) && WithinCapacity(b, m) && SameShape(m, r) && WithinCapacity(m, r)
    ensures SameShape(b, r) && WithinCapacity(b, r)
  {
  }

  /** The refused cross-container drop puts the skill back: appended to an
      unassigned source, spliced in at its old index in a level source. */
  lemma AcrossRefusedBack(b: Board, src: Container, dst: Container, id: string, from: nat, overIndex: int)
    requires src != dst && from < |SkillsOf(b, src)| && TargetFull(b, dst)
    ensures var source := SkillsOf(b, src);
      Across(b, src, dst, id, from, overIndex).board ==
        if src.Unassigned? then b.(unassigned := b.unassigned + [source[from]])
        else WithSkills(b, src, Splice(Without(source, id), from, source[from]))
  {
  }

  /** A cross-container drop keeps the level list's shape and never takes a
      level above its capacity. */
  lemma AcrossKeepsCapacity(b: Board, src: Container, dst: Container, id: string, from: nat, overIndex: int)
    requires src != dst && from < |SkillsOf(b, src)| && SkillsOf(b, src)[from].id == id && Resolves(b, src)
    ensures var r := Across(b, src, dst, id, from, overIndex).board;
      SameShape(b, r) && WithinCapacity(b, r)
  {
    if TargetFull(b, dst) {
      AcrossRefusedCapacity(b, src, dst, id, from, overIndex);
    } else {
      AcrossTakenCapacity(b, src, dst, id, from, overIndex);
    }
  }

  /** An accepted drop takes the skill out of its source and places it in a
      target that has room for it. */
  lemma AcrossTakenCapacity(b: Board, src: Container, dst: Container, id: string, from: nat, overIndex: int)
    requires src != dst && from < |SkillsOf(b, src)| && SkillsOf(b, src)[from].id == id && Resolves(b, src)
    requires !TargetFull(b, dst)
    ensures var r := Across(b, src, dst, id, from, overIndex).board;
      SameShape(b, r) && WithinCapacity(b, r)
  {
    var source := SkillsOf(b, src);
    var removed := Without(source, id);
    WithoutShrinks(source, from);
    WithSkillsCapacity(b, src, removed);
    if dst.InLevel? && Resolves(b, dst) {
      AcrossPlacedCapacity(b, src, dst, id, from, overIndex);
    } else {
      AcrossOpen(b, src, dst, id, from, overIndex);
    }
  }

  /** The target level has room: placing the skill there keeps it within
      its capacity. */
  lemma AcrossPlacedCapacity(b: Board, src: Container, dst: Container, id: string, from: nat, overIndex: int)
    requires src != dst && from < |SkillsOf(b, src)| && Resolves(b, src)
    requires dst.InLevel? && Resolves(b, dst) && !TargetFull(b, dst)
    requires var taken := WithSkills(b, src, Without(SkillsOf(b, src), id));
      SameShape(b, taken) && WithinCapacity(b, taken)
    ensures var r := Across(b, src, dst, id, from, overIndex).board;
      SameShape(b, r) && WithinCapacity(b, r)
  {
    var source := SkillsOf(b, src);
    var taken := WithSkills(b, src, Without(source, id));
    var placed := PlaceAt(SkillsOf(b, dst), overIndex, source[from]);
    var t := LevelIndex(b.levels, dst.levelId);
    AcrossTakes(b, src, dst, id, from, overIndex);
    LevelIndexSameIds(b.levels, taken.levels, dst.levelId);
    assert taken.levels[t].newSkillCount == b.levels[t].newSkillCount;
    assert |placed| <= b.levels[t].newSkillCount;
    WithSkillsCapacity(taken, dst, placed);
    CapacityTransitive(b, taken, WithSkills(taken, dst, placed));
  }

  /** The refused drop puts back no more than it took out. */
  lemma AcrossRefusedCapacity(b: Board, src: Container, dst: Container, id: string, from: nat, overIndex: int)
    requires src != dst && from < |SkillsOf(b, src)| && SkillsOf(b, src)[from].id == id && Resolves(b, src)
    requires TargetFull(b, dst)
    ensures var r := Across(b, src, dst, id, from, overIndex).board;
      SameShape(b, r) && WithinCapacity(b, r)
  {
    var source := SkillsOf(b, src);
    AcrossRefusedBack(b, src, dst, id, from, overIndex);
    if src.InLevel? {
      WithoutShrinks(source, from);
      WithSkillsCapacity(b, src, Splice(Without(source, id), from, source[from]));
    }
  }

  /** A drop into the unassigned list or onto an unknown level changes the
      levels only by taking the skill out of its source. */
  lemma AcrossOpen(b: Board, src: Container, dst: Container, id: string, from: nat, overIndex: int)
    requires src != dst && from < |SkillsOf(b, src)|
    requires !TargetFull(b, dst) && !(dst.InLevel? && Resolves(b, dst))
    ensures Across(b, src, dst, id, from, overIndex).board.levels ==
      WithSkills(b, src, Without(SkillsOf(b, src), id)).levels
  {
  }

  /** The accepted cross-container drop is two list replacements: the
      source without the skill, then the target with it placed. */
  lemma AcrossTakes(b: Board, src: Container, dst: Container, id: string, from: nat, overIndex: int)
    requires src != dst && from < |SkillsOf(b, src)|
    requires Resolves(b, src) && Resolves(b, dst) && !TargetFull(b, dst)
    ensures var source := SkillsOf(b, src);
      var taken := WithSkills(b, src, Without(source, id));
      && Resolves(taken, dst) && SkillsOf(taken, dst) == SkillsOf(b, dst)
      && Across(b, src, dst, id, from, overIndex).board ==
         WithSkills(taken, dst, PlaceAt(SkillsOf(b, dst), overIndex, source[from]))
  {
    var source := SkillsOf(b, src);
    var taken := WithSkills(b, src, Without(source, id));
    WithSkillsLists(b, src, Without(source, id));
    if dst.InLevel? {
      LevelIndexSameIds(b.levels, taken.levels, dst.levelId);
    }
  }

  /** A cross-container drop into a list that takes it removes the skill
      from its source and inserts it into the target at the drop index,
      or appends it when the index is -1 or past the end. When the skill's
      id is unique in its source, every skill stays on the board exactly
      as often as before. */
  lemma AcrossMoves(b: Board, src: Container, dst: Container, id: string, from: nat, overIndex: int)
    requires src != dst && from < |SkillsOf(b, src)| && SkillsOf(b, src)[from].id == id
    requires Resolves(b, src) && Resolves(b, dst) && !TargetFull(b, dst)
    ensures var r := Across(b, src, dst, id, from, overIndex).board;
      var skill := SkillsOf(b, src)[from];
      && SkillsOf(r, src) == Without(SkillsOf(b, src), id)
      && SkillsOf(r, dst) == PlaceAt(SkillsOf(b, dst), overIndex, skill)
      && (forall c :: c != src && c != dst ==> SkillsOf(r, c) == SkillsOf(b, c))
      && (UniqueIds(SkillsOf(b, src)) ==> Everything(r) == Everything(b))
  {
    var source := SkillsOf(b, src);
    var skill := source[from];
    var removed := Without(source, id);
    var taken := WithSkills(b, src, removed);
    var placed := PlaceAt(SkillsOf(b, dst), overIndex, skill);
    var r := WithSkills(taken, dst, placed);
    AcrossTakes(b, src, dst, id, from, overIndex);
    WithSkillsEffect(b, src, removed);
    WithSkillsEffect(taken, dst, placed);
    if UniqueIds(source) {
      WithoutUnique(source, from);
      Rebalance(Everything(r), Everything(taken), Everything(b), multiset(source), multiset(removed),
                multiset(SkillsOf(b, dst)), multiset(placed), multiset{skill});
    }
  }

  /** A full target level refuses the drop, and a level source gets the
      skill spliced back at its old index. */
  lemma AcrossRefusedFromLevel(b: Board, src: Container, dst: Container, id: string, from: nat, overIndex: int)
    requires src != dst && from < |SkillsOf(b, src)| && SkillsOf(b, src)[from].id == id
    requires src.InLevel? && Resolves(b, src) && TargetFull(b, dst)
    ensures var r := Across(b, src, dst, id, from, overIndex).board;
      && SkillsOf(r, src) == Splice(Without(SkillsOf(b, src), id), from, SkillsOf(b, src)[from])
      && (forall c :: c != src ==> SkillsOf(r, c) == SkillsOf(b, c))
  {
    var source := SkillsOf(b, src);
    AcrossRefusedBack(b, src, dst, id, from, overIndex);
    WithSkillsEffect(b, src, Splice(Without(source, id), from, source[from]));
  }

  /** When the id was unique in the level it came from, the refused drop
      leaves the board exactly as it was. */
  lemma AcrossRefusedRestores(b: Board, src: Container, dst: Container, id: string, from: nat, overIndex: int)
    requires src != dst && from < |SkillsOf(b, src)| && SkillsOf(b, src)[from].id == id
    requires src.InLevel? && Resolves(b, src) && TargetFull(b, dst) && UniqueIds(SkillsOf(b, src))
    ensures Across(b, src, dst, id, from, overIndex).board == b
  {
    var source := SkillsOf(b, src);
    WithoutUnique(source, from);
    SpliceUndoesRemove(source, from);
    var li := LevelIndex(b.levels, src.levelId);
    assert b.levels[li := b.levels[li].(skills := source)] == b.levels;
  }

  /** A full target level refuses a skill dragged from the unassigned list,
      and the list ends as its pre-drag self plus the skill: the skill is
      then on the board once more than before. */
  lemma AcrossRefusedFromUnassigned(b: Board, dst: Container, id: string, from: nat, overIndex: int)
    requires from < |b.unassigned| && b.unassigned[from].id == id && TargetFull(b, dst)
    ensures var r := Across(b, Unassigned, dst, id, from, overIndex).board;
      && r.levels == b.levels
      && r.unassigned == b.unassigned + [b.unassigned[from]]
      && Everything(r) == Everything(b) + multiset{b.unassigned[from]}
  {
  }

  /** A drop onto a level the board does not know still filters the skill
      out of its source and still schedules the save, but places it nowhere:
      with a unique id, the board ends one copy of the skill short. */
  lemma AcrossUnknownTargetLoses(b: Board, src: Container, dst: Container, id: string, from: nat, overIndex: int)
    requires src != dst && from < |SkillsOf(b, src)| && SkillsOf(b, src)[from].id == id
    requires Resolves(b, src) && dst.InLevel? && LevelIndex(b.levels, dst.levelId) == -1
    ensures var d := Across(b, src, dst, id, from, overIndex);
      && d.autoSave && d.error.None?
      && SkillsOf(d.board, src) == Without(SkillsOf(b, src), id)
      && (forall c :: c != src ==> SkillsOf(d.board, c) == SkillsOf(b, c))
      && (UniqueIds(SkillsOf(b, src)) ==> Everything(d.board) + multiset{SkillsOf(b, src)[from]} == Everything(b))
  {
    var source := SkillsOf(b, src);
    var removed := Without(source, id);
    var after := WithSkills(b, src, removed);
    assert Across(b, src, dst, id, from, overIndex) == Drop(after, None, true);
    WithSkillsEffect(b, src, removed);
    if UniqueIds(source) {
      WithoutUnique(source, from);
      assert Everything(after) + multiset{source[from]} + multiset(removed) == Everything(b) + multiset(removed);
      Cancel(Everything(after) + multiset{source[from]}, multiset(removed), Everything(b));
    }
  }

  /** `handleDragEnd` on the board, for a drop of skill `id` from container
      `active` onto container `over` at `overIndex` (-1 when the drop did
      not resolve to a position). */
  function DragEndResult(b: Board, sortingMode: bool, id: string, active: Option<Container>,
                         over: Option<Container>, overIndex: int): (r: Drop)
    requires overIndex >= -1
    ensures over.None? || active.None? ==> r == Drop(b, None, false)
    ensures active.Some? && over.Some? && sortingMode && active != over ==> r == Drop(b, None, false)
    ensures active.Some? && SkillIndex(SkillsOf(b, active.value), id) == -1 ==> r == Drop(b, None, false)
    ensures r.error.Some? ==> !r.autoSave
    ensures active.Some? && active == over && SkillIndex(SkillsOf(b, active.value), id) >= 0 ==>
      r.autoSave && r.error.None?
  {
    if over.None? || active.None? then Drop(b, None, false)
    else if sortingMode && active.value != over.value then Drop(b, None, false)
    else
      var from := SkillIndex(SkillsOf(b, active.value), id);
      if from == -1 then Drop(b, None, false)
      else if active.value == over.value then Drop(Within(b, active.value, from, overIndex), None, true)
      else Across(b, active.value, over.value, id, from, overIndex)
  }

  /** A same-list drop keeps the level list's shape and every level's size. */
  lemma WithinKeepsCapacity(b: Board, c: Container, from: nat, overIndex: int)
    requires from < |SkillsOf(b, c)| && overIndex >= -1
    ensures SameShape(b, Within(b, c, from, overIndex)) && WithinCapacity(b, Within(b, c, from, overIndex))
  {
    if overIndex >= 0 {
      WithSkillsCapacity(b, c, ArrayMove(SkillsOf(b, c), from, overIndex));
    }
  }

  /** No drop changes the level list's ids, names or capacities, or takes a
      level above its capacity. */
  lemma DragEndKeepsCapacity(b: Board, sortingMode: bool, id: string, active: Option<Container>,
                             over: Option<Container>, overIndex: int)
    requires overIndex >= -1
    ensures var r := DragEndResult(b, sortingMode, id, active, over, overIndex).board;
      SameShape(b, r) && WithinCapacity(b, r)
  {
    var r := DragEndResult(b, sortingMode, id, active, over, overIndex).board;
    if active.None? || over.None? || (sortingMode && active.value != over.value) {
      assert r == b;
    } else {
      var src := active.value;
      var from := SkillIndex(SkillsOf(b, src), id);
      if from == -1 {
        assert r == b;
      } else if src == over.value {
        assert r == Within(b, src, from, overIndex);
        WithinKeepsCapacity(b, src, from, overIndex);
      } else {
        assert r == Across(b, src, over.value, id, from, overIndex).board;
        AcrossKeepsCapacity(b, src, over.value, id, from, overIndex);
      }
    }
  }

  /** `handleRemoveFromLevel` on the board: the first skill with the id
      leaves the level (every copy of the id is filtered out) and is
      appended to the unassigned list; none for an unknown level or skill. */
  function Unassign(b: Board, levelId: string, skillId: string): (r: Option<Board>)
    ensures r.None? <==> !Resolves(b, InLevel(levelId)) || SkillIndex(SkillsOf(b, InLevel(levelId)), skillId) == -1
  {
    var li := LevelIndex(b.levels, levelId);
    if li == -1 then None
    else
      var k := SkillIndex(b.levels[li].skills, skillId);
      if k == -1 then None
      else Some(Board(b.levels[li := b.levels[li].(skills := Without(b.levels[li].skills, skillId))],
                      b.unassigned + [b.levels[li].skills[k]]))
  }

  /** The unassign step as a list replacement: the level's list without the
      id, and the unassigned list with the skill appended. */
  lemma UnassignTakes(b: Board, levelId: string, skillId: string)
    requires Unassign(b, levelId, skillId).Some?
    ensures var level := SkillsOf(b, InLevel(levelId));
      var k := SkillIndex(level, skillId);
      && Resolves(b, InLevel(levelId)) && 0 <= k < |level|
      && Unassign(b, levelId, skillId).value ==
           WithSkills(b, InLevel(levelId), Without(level, skillId)).(unassigned := b.unassigned + [level[k]])
  {
  }

  /** Removing to unassigned leaves the level without the id, puts the skill
      last in the unassigned list and touches no other level. */
  lemma UnassignMoves(b: Board, levelId: string, skillId: string)
    requires Unassign(b, levelId, skillId).Some?
    ensures var r := Unassign(b, levelId, skillId).value;
      var level := SkillsOf(b, InLevel(levelId));
      && SameShape(b, r) && WithinCapacity(b, r)
      && SkillsOf(r, InLevel(levelId)) == Without(level, skillId)
      && (forall s :: s in SkillsOf(r, InLevel(levelId)) ==> s.id != skillId)
      && r.unassigned == b.unassigned + [level[SkillIndex(level, skillId)]]
      && (forall c: Container :: c.InLevel? && c.levelId != levelId ==> SkillsOf(r, c) == SkillsOf(b, c))
  {
    var c := InLevel(levelId);
    var level := SkillsOf(b, c);
    var removed := Without(level, skillId);
    var taken := WithSkills(b, c, removed);
    WithSkillsEffect(b, c, removed);
    WithSkillsCapacity(b, c, removed);
    UnassignTakes(b, levelId, skillId);
    var r := Unassign(b, levelId, skillId).value;
    forall d: Container | d.InLevel?
      ensures SkillsOf(r, d) == SkillsOf(taken, d)
    {
    }
  }

  /** When the id is unique in the level, removing to unassigned keeps every
      skill on the board exactly as often as before. */
  lemma UnassignConserves(b: Board, levelId: string, skillId: string)
    requires Unassign(b, levelId, skillId).Some? && UniqueIds(SkillsOf(b, InLevel(levelId)))
    ensures Everything(Unassign(b, levelId, skillId).value) == Everything(b)
  {
    var c := InLevel(levelId);
    var level := SkillsOf(b, c);
    var k := SkillIndex(level, skillId);
    var skill := level[k];
    var removed := Without(level, skillId);
    var taken := WithSkills(b, c, removed);
    UnassignTakes(b, levelId, skillId);
    WithSkillsContents(b, c, removed);
    WithoutUnique(level, k);
    EverythingAppend(taken, skill);
    Cancel(Everything(taken) + multiset{skill}, multiset(removed), Everything(b));
  }

  // ---- the editor state --------------------------------------------------

  /** The editor: levels with their skills, the unassigned skills, the error
      message shown, and whether sorting mode is on. */
  class Editor {
    var levels: seq<Level>
    var unassigned: seq<Skill>
    var error: string
    var sortingMode: bool

    constructor (levels: seq<Level>, unassigned: seq<Skill>, sortingMode: bool)
      ensures this.levels == levels && this.unassigned == unassigned
      ensures this.sortingMode == sortingMode && error == ""
    {
      this.levels := levels;
      this.unassigned := unassigned;
      this.sortingMode := sortingMode;
      error := "";
    }

    function Lists(): (b: Board)
      reads this
    {
      Board(levels, unassigned)
    }

    /** `handleDragEnd`: apply the drop to the lists, show its error, and
        return whether the auto-save is scheduled. */
    method DragEnd(activeId: string, active: Option<Container>, over: Option<Container>, overIndex: int)
      returns (autoSave: bool)
      requires overIndex >= -1
      modifies this`levels, this`unassigned, this`error
      ensures var r := DragEndResult(old(Lists()), sortingMode, activeId, active, over, overIndex);
        && Lists() == r.board
        && error == (if r.error.Some? then r.error.value else old(error))
        && autoSave == r.autoSave
      ensures SameShape(old(Lists()), Lists()) && WithinCapacity(old(Lists()), Lists())
    {
      var b := Lists();
      var r := DragEndResult(b, sortingMode, activeId, active, over, overIndex);
      DragEndKeepsCapacity(b, sortingMode, activeId, active, over, overIndex);
      levels, unassigned := r.board.levels, r.board.unassigned;
      error := if r.error.Some? then r.error.value else error;
      autoSave := r.autoSave;
    }

    /** `handleRemoveFromLevel`: returns whether the auto-save is scheduled. */
    method RemoveFromLevel(levelId: string, skillId: string) returns (autoSave: bool)
      modifies this`levels, this`unassigned
      ensures var r := Unassign(old(Lists()), levelId, skillId);
        && autoSave == r.Some?
        && Lists() == (if r.Some? then r.value else old(Lists()))
    {
      var li := LevelIndex(levels, levelId);
      if li == -1 {
        return false;
      }
      var k := SkillIndex(levels[li].skills, skillId);
      if k == -1 {
        return false;
      }
      var skill := levels[li].skills[k];
      levels := levels[li := levels[li].(skills := Without(levels[li].skills, skillId))];
      unassigned := unassigned + [skill];
      autoSave := true;
    }
  }
}
