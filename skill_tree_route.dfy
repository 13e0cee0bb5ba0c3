/** The skill-tree endpoint. GET lists every catalog level with the user's
    skills for it in `position` order, and the catalog skills the user has
    not placed anywhere, each marked unlocked when the user's experience
    covers its cost. POST replaces the user's configuration: it deletes all of
    the user's rows, then creates one row per well-formed submitted entry. */
module SkillTreeRoute {
  import opened Common
  import opened Schema

  datatype TreeLevel = TreeLevel(id: string, name: string, experienceNeeded: int, newSkillCount: int, skills: seq<SkillView>)

  datatype SkillTree = SkillTree(levels: seq<TreeLevel>, unassignedSkills: seq<SkillView>)

  // ---- ordering by position ----------------------------------------------

  predicate SortedByPosition(cs: seq<Joined>) {
    forall i, j :: 0 <= i < j < |cs| ==> cs[i].row.position <= cs[j].row.position
  }

  /** The rows holding `position == p`, in order. */
  function WithPosition(cs: seq<Joined>, p: int): (r: seq<Joined>) {
    if |cs| == 0 then []
    else (if cs[0].row.position == p then [cs[0]] else []) + WithPosition(cs[1..], p)
  }

  /** Insert `c` before the first row whose position is not smaller. */
  function InsertByPosition(c: Joined, sorted: seq<Joined>): (r: seq<Joined>) {
    if |sorted| == 0 then [c]
    else if c.row.position <= sorted[0].row.position then [c] + sorted
    else [sorted[0]] + InsertByPosition(c, sorted[1..])
  }

  /** Inserting adds exactly one copy of `c` and loses nothing. */
  lemma {:induction false} InsertAddsOne(c: Joined, sorted: seq<Joined>)
    ensures multiset(InsertByPosition(c, sorted)) == multiset(sorted) + multiset{c}
  {
    if |sorted| > 0 && c.row.position > sorted[0].row.position {
      InsertAddsOne(c, sorted[1..]);
      assert sorted == [sorted[0]] + sorted[1..];
    }
  }

  /** Inserting into a sorted list keeps it sorted. */
  lemma {:induction false} InsertKeepsSorted(c: Joined, sorted: seq<Joined>)
    requires SortedByPosition(sorted)
    ensures SortedByPosition(InsertByPosition(c, sorted))
  {
    if |sorted| == 0 {
    } else if c.row.position <= sorted[0].row.position {
      ConsSorted(c, sorted);
    } else {
      var head, tail := sorted[0], sorted[1..];
      var rest := InsertByPosition(c, tail);
      InsertKeepsSorted(c, tail);
      InsertAddsOne(c, tail);
      assert forall y :: y in rest ==> y == c || y in tail by {
        forall y | y in rest
          ensures y == c || y in tail
        {
          assert y in multiset(rest);
        }
      }
      assert forall k :: 0 <= k < |tail| ==> head.row.position <= tail[k].row.position;
      ConsSorted(head, rest);
    }
  }

  /** A row no later than every row of a sorted list can go in front of it. */
  lemma ConsSorted(x: Joined, s: seq<Joined>)
    requires SortedByPosition(s) && forall y :: y in s ==> x.row.position <= y.row.position
    ensures SortedByPosition([x] + s)
  {
    forall i, j | 0 <= i < j < |s| + 1
      ensures ([x] + s)[i].row.position <= ([x] + s)[j].row.position
    {
      assert ([x] + s)[j] == s[j - 1];
      if i > 0 {
        assert ([x] + s)[i] == s[i - 1];
      }
    }
  }

  /** `.sort((a, b) => a.position - b.position)`, a stable sort. */
  function SortByPosition(cs: seq<Joined>): (r: seq<Joined>)
    ensures SortedByPosition(r)
    ensures multiset(r) == multiset(cs)
  {
    if |cs| == 0 then []
    else
      assert cs == [cs[0]] + cs[1..];
      InsertAddsOne(cs[0], SortByPosition(cs[1..]));
      InsertKeepsSorted(cs[0], SortByPosition(cs[1..]));
      InsertByPosition(cs[0], SortByPosition(cs[1..]))
  }

  lemma WithPositionCons(x: Joined, s: seq<Joined>, p: int)
    ensures WithPosition([x] + s, p) == (if x.row.position == p then [x] else []) + WithPosition(s, p)
  {
    assert ([x] + s)[0] == x && ([x] + s)[1..] == s;
  }

  lemma {:induction false} InsertKeepsTies(c: Joined, sorted: seq<Joined>, p: int)
    ensures WithPosition(InsertByPosition(c, sorted), p) ==
            (if c.row.position == p then [c] else []) + WithPosition(sorted, p)
  {
    if |sorted| == 0 || c.row.position <= sorted[0].row.position {
      WithPositionCons(c, sorted, p);
    } else {
      var head := sorted[0];
      var tail := sorted[1..];
      InsertKeepsTies(c, tail, p);
      WithPositionCons(head, InsertByPosition(c, tail), p);
      assert sorted == [head] + tail;
      WithPositionCons(head, tail, p);
    }
  }

  /** The sort is stable: rows with equal positions keep their relative order. */
  lemma {:induction false} SortIsStable(cs: seq<Joined>, p: int)
    ensures WithPosition(SortByPosition(cs), p) == WithPosition(cs, p)
  {
    if |cs| > 0 {
      SortIsStable(cs[1..], p);
      InsertKeepsTies(cs[0], SortByPosition(cs[1..]), p);
    }
  }

  // ---- GET ---------------------------------------------------------------

  /** `userSkillTreeConfig.filter((config) => config.levelId === levelId)`. */
  function OfLevel(cs: seq<Joined>, levelId: string): (r: seq<Joined>)
    ensures multiset(r) <= multiset(cs)
    ensures forall c :: c in r <==> c in cs && c.row.levelId == levelId
    ensures r == Filter(cs, (c: Joined) => c.row.levelId == levelId)
  {
    if |cs| == 0 then []
    else
      assert cs == [cs[0]] + cs[1..];
      (if cs[0].row.levelId == levelId then [cs[0]] else []) + OfLevel(cs[1..], levelId)
  }

  function SkillsOf(cs: seq<Joined>, experience: int): (r: seq<SkillView>)
    ensures |r| == |cs|
    ensures forall k :: 0 <= k < |cs| ==> r[k] == ViewOf(cs[k].skill, experience)
  {
    if |cs| == 0 then [] else [ViewOf(cs[0].skill, experience)] + SkillsOf(cs[1..], experience)
  }

  /** `levelsWithSkills`: one entry per catalog level, in catalog order. */
  function LevelsWithSkills(levels: seq<Level>, cs: seq<Joined>, experience: int): (r: seq<TreeLevel>)
    ensures |r| == |levels|
    ensures forall i :: 0 <= i < |levels| ==>
      && r[i].id == levels[i].id && r[i].name == levels[i].name
      && r[i].experienceNeeded == levels[i].experienceNeeded
      && r[i].newSkillCount == levels[i].newSkillCount
      && r[i].skills == SkillsOf(SortByPosition(OfLevel(cs, levels[i].id)), experience)
  {
    if |levels| == 0 then []
    else
      var l := levels[0];
      [TreeLevel(l.id, l.name, l.experienceNeeded, l.newSkillCount,
                 SkillsOf(SortByPosition(OfLevel(cs, l.id)), experience))]
      + LevelsWithSkills(levels[1..], cs, experience)
  }

  /** Whether some configuration row places the skill `id`. */
  predicate Assigned(cs: seq<Joined>, id: string) {
    exists c :: c in cs && c.row.skillId == id
  }

  /** `unassignedSkills`: the catalog skills no row of the user places, in
      catalog order, each with its unlock flag. */
  function UnassignedSkills(skills: seq<Skill>, cs: seq<Joined>, experience: int): (r: seq<SkillView>)
    ensures |r| <= |skills|
    ensures r == MapSeq(Filter(skills, (s: Skill) => !Assigned(cs, s.id)), (s: Skill) => ViewOf(s, experience))
  {
    if |skills| == 0 then []
    else
      var p := (s: Skill) => !Assigned(cs, s.id);
      var f := (s: Skill) => ViewOf(s, experience);
      var head := if p(skills[0]) then [skills[0]] else [];
      var tail := skills[1..];
      var rest := UnassignedSkills(tail, cs, experience);
      assert skills == [skills[0]] + tail;
      assert MapSeq(head, f) == if p(skills[0]) then [f(skills[0])] else [];
      MapSeqAppend(head, Filter(tail, p), f);
      MapSeq(head, f) + rest
  }

  /** No skill is both placed and unassigned, and every unplaced catalog
      skill is reported. */
  lemma UnassignedMembers(skills: seq<Skill>, cs: seq<Joined>, experience: int)
    ensures forall t :: t in UnassignedSkills(skills, cs, experience) ==> !Assigned(cs, t.id)
    ensures forall t :: t in UnassignedSkills(skills, cs, experience) ==>
      exists s :: s in skills && t == ViewOf(s, experience)
    ensures forall s :: s in skills && !Assigned(cs, s.id) ==> ViewOf(s, experience) in UnassignedSkills(skills, cs, experience)
  {
    var p := (s: Skill) => !Assigned(cs, s.id);
    var f := (s: Skill) => ViewOf(s, experience);
    var kept := Filter(skills, p);
    var r := UnassignedSkills(skills, cs, experience);
    assert r == MapSeq(kept, f);
    forall t | t in r
      ensures !Assigned(cs, t.id) && exists s :: s in skills && t == ViewOf(s, experience)
    {
      var k :| 0 <= k < |r| && r[k] == t;
      assert kept[k] in kept;
      assert t == f(kept[k]);
    }
    forall s | s in skills && !Assigned(cs, s.id)
      ensures ViewOf(s, experience) in r
    {
      assert s in kept;
      var k :| 0 <= k < |kept| && kept[k] == s;
      assert r[k] == f(s);
    }
  }

  /** GET: read only. */
  function Get(db: Database, session: Option<string>): (r: Result<SkillTree, Status>)
    reads db
    ensures SessionUser(session).None? ==> r == Err(Unauthorized)
    ensures SessionUser(session).Some? && UserIndex(db.users, session.value) == -1 ==> r == Err(NotFound)
    ensures SessionUser(session).Some? && UserIndex(db.users, session.value) >= 0 ==> r.Ok?
    ensures r.Ok? ==>
      var u := db.users[UserIndex(db.users, session.value)];
      var cs := Join(db.configs, db.levels, db.skills, u.id);
      && r.value.levels == LevelsWithSkills(db.levels, cs, u.experience)
      && r.value.unassignedSkills == UnassignedSkills(db.skills, cs, u.experience)
  {
    match SessionUser(session)
    case None => Err(Unauthorized)
    case Some(name) =>
      var i := UserIndex(db.users, name);
      if i == -1 then Err(NotFound)
      else
        var u := db.users[i];
        var cs := Join(db.configs, db.levels, db.skills, u.id);
        Ok(SkillTree(LevelsWithSkills(db.levels, cs, u.experience), UnassignedSkills(db.skills, cs, u.experience)))
  }

  // ---- POST --------------------------------------------------------------

  datatype Placement = Placement(levelId: string, skillId: string, position: int)

  /** What the POST loop does with one submitted entry. */
  datatype Outcome = Skip | Create(placement: Placement) | Fail

  /** The POST loop's check `!levelId || !skillId || typeof position !== 'number'`:
      an entry passes it when its level and skill ids are truthy and its
      position is a number. */
  predicate Passes(entry: Json) {
    match Destructure(entry, "levelId")
    case Err(_) => false
    case Ok(levelId) =>
      Truthy(levelId) && Truthy(Destructure(entry, "skillId").value) &&
      var position := Destructure(entry, "position").value;
      position.Some? && position.value.JNum?
  }

  /** Destructuring a `null` entry throws, and so does creating a row whose
      ids are not strings; an entry that fails the check is skipped. */
  function Classify(entry: Json): (o: Outcome)
    ensures entry.JNull? ==> o == Fail
    ensures o == Skip <==> !entry.JNull? && !Passes(entry)
    ensures Passes(entry) ==>
      && entry.JObj? && "levelId" in entry.fields && "skillId" in entry.fields
      && "position" in entry.fields && entry.fields["position"].JNum?
    ensures Passes(entry) && entry.fields["levelId"].JStr? && entry.fields["skillId"].JStr? ==>
      o == Create(Placement(entry.fields["levelId"].s, entry.fields["skillId"].s, entry.fields["position"].n))
    ensures o == Fail <==>
      entry.JNull? || (Passes(entry) && !(entry.fields["levelId"].JStr? && entry.fields["skillId"].JStr?))
    ensures o.Create? ==>
      && Passes(entry) && entry.JObj?
      && entry.fields["levelId"] == JStr(o.placement.levelId)
      && entry.fields["skillId"] == JStr(o.placement.skillId)
      && entry.fields["position"] == JNum(o.placement.position)
  {
    if entry.JNull? then Fail
    else if !Passes(entry) then Skip
    else
      var levelId := entry.fields["levelId"];
      var skillId := entry.fields["skillId"];
      if levelId.JStr? && skillId.JStr? then Create(Placement(levelId.s, skillId.s, entry.fields["position"].n))
      else Fail
  }

  /** What the loop does with each entry, in entry order. */
  function Outcomes(entries: seq<Json>): (os: seq<Outcome>)
    ensures |os| == |entries|
    ensures forall i :: 0 <= i < |entries| ==> os[i] == Classify(entries[i])
  {
    seq(|entries|, i requires 0 <= i < |entries| => Classify(entries[i]))
  }

  /** The placements created for a run of outcomes, in order, and whether the
      run stopped on a throwing entry (what was created before it stays). */
  function Run(os: seq<Outcome>): (r: (seq<Placement>, bool))
    ensures |r.0| <= |os|
  {
    if |os| == 0 then ([], false)
    else
      var (created, failed) := Run(os[..|os| - 1]);
      if failed then (created, true)
      else
        match os[|os| - 1]
        case Fail => (created, true)
        case Skip => (created, false)
        case Create(p) => (created + [p], false)
  }

  /** The rows the POST loop creates for the submitted entries, and whether
      it threw part-way. */
  function Plan(entries: seq<Json>): (r: (seq<Placement>, bool))
    ensures |r.0| <= |entries|
  {
    Run(Outcomes(entries))
  }

  /** One more outcome, after a prefix that did not throw. */
  lemma RunStep(os: seq<Outcome>, k: nat)
    requires k < |os| && !Run(os[..k]).1
    ensures os[k] == Fail ==> Run(os[..k + 1]) == (Run(os[..k]).0, true)
    ensures os[k] == Skip ==> Run(os[..k + 1]) == Run(os[..k])
    ensures os[k].Create? ==> Run(os[..k + 1]) == (Run(os[..k]).0 + [os[k].placement], false)
  {
    assert os[..k + 1][..k] == os[..k];
  }

  /** Once the run has met a throwing entry, the rest of the entries make no
      difference to what was created. */
  lemma {:induction false} RunStaysFailed(os: seq<Outcome>, k: nat)
    requires k <= |os| && Run(os[..k]).1
    ensures Run(os) == Run(os[..k])
  {
    if k < |os| {
      var init := os[..|os| - 1];
      assert init[..k] == os[..k];
      RunStaysFailed(init, k);
    } else {
      assert os[..k] == os;
    }
  }

  lemma {:induction false} RunSound(os: seq<Outcome>)
    ensures Run(os).1 <==> Fail in os
    ensures forall p :: p in Run(os).0 ==> Create(p) in os
    ensures !Run(os).1 ==> forall o :: o in os && o.Create? ==> o.placement in Run(os).0
  {
    if |os| > 0 {
      var init := os[..|os| - 1];
      assert os == init + [os[|os| - 1]];
      RunSound(init);
    }
  }

  /** The loop stops early exactly when some entry throws; every row it
      creates comes from an entry that passes the check, and when nothing
      throws every such entry gets its row. */
  lemma PlanSound(entries: seq<Json>)
    ensures Plan(entries).1 <==> exists e :: e in entries && Classify(e) == Fail
    ensures forall p :: p in Plan(entries).0 ==> exists e :: e in entries && Classify(e) == Create(p)
    ensures !Plan(entries).1 ==>
      forall e :: e in entries && Classify(e).Create? ==> Classify(e).placement in Plan(entries).0
  {
    var os := Outcomes(entries);
    RunSound(os);
    assert forall o :: o in os ==> exists e :: e in entries && Classify(e) == o;
    assert forall e :: e in entries ==> Classify(e) in os;
  }

  /** The rows created for `userId` from `ps`, with ids counted from `firstId`. */
  function NewRows(userId: string, ps: seq<Placement>, firstId: nat): (r: seq<ConfigRow>)
    ensures |r| == |ps|
    ensures forall k :: 0 <= k < |ps| ==>
      r[k] == ConfigRow(firstId + k, userId, ps[k].levelId, ps[k].skillId, ps[k].position)
  {
    if |ps| == 0 then []
    else
      var n := |ps| - 1;
      NewRows(userId, ps[..n], firstId) + [ConfigRow(firstId + n, userId, ps[n].levelId, ps[n].skillId, ps[n].position)]
  }

  lemma NewRowsAppend(userId: string, ps: seq<Placement>, p: Placement, firstId: nat)
    ensures NewRows(userId, ps + [p], firstId) ==
            NewRows(userId, ps, firstId) + [ConfigRow(firstId + |ps|, userId, p.levelId, p.skillId, p.position)]
  {
    assert (ps + [p])[..|ps|] == ps;
  }

  lemma RowsCons(x: ConfigRow, s: seq<ConfigRow>, userId: string)
    ensures RowsOf([x] + s, userId) == (if x.userId == userId then [x] else []) + RowsOf(s, userId)
    ensures RowsNotOf([x] + s, userId) == (if x.userId != userId then [x] else []) + RowsNotOf(s, userId)
  {
    assert ([x] + s)[0] == x && ([x] + s)[1..] == s;
  }

  lemma {:induction false} RowsOfAppend(a: seq<ConfigRow>, b: seq<ConfigRow>, userId: string)
    ensures RowsOf(a + b, userId) == RowsOf(a, userId) + RowsOf(b, userId)
  {
    if |a| == 0 {
      assert a + b == b;
    } else {
      var t := a[1..];
      var x := if a[0].userId == userId then [a[0]] else [];
      assert a == [a[0]] + t;
      assert a + b == [a[0]] + (t + b);
      calc {
        RowsOf(a + b, userId);
      ==  { RowsCons(a[0], t + b, userId); }
        x + RowsOf(t + b, userId);
      ==  { RowsOfAppend(t, b, userId); }
        x + (RowsOf(t, userId) + RowsOf(b, userId));
      ==
        (x + RowsOf(t, userId)) + RowsOf(b, userId);
      ==  { RowsCons(a[0], t, userId); }
        RowsOf(a, userId) + RowsOf(b, userId);
      }
    }
  }

  lemma {:induction false} RowsNotOfAppend(a: seq<ConfigRow>, b: seq<ConfigRow>, userId: string)
    ensures RowsNotOf(a + b, userId) == RowsNotOf(a, userId) + RowsNotOf(b, userId)
  {
    if |a| == 0 {
      assert a + b == b;
    } else {
      var t := a[1..];
      var x := if a[0].userId != userId then [a[0]] else [];
      assert a == [a[0]] + t;
      assert a + b == [a[0]] + (t + b);
      calc {
        RowsNotOf(a + b, userId);
      ==  { RowsCons(a[0], t + b, userId); }
        x + RowsNotOf(t + b, userId);
      ==  { RowsNotOfAppend(t, b, userId); }
        x + (RowsNotOf(t, userId) + RowsNotOf(b, userId));
      ==
        (x + RowsNotOf(t, userId)) + RowsNotOf(b, userId);
      ==  { RowsCons(a[0], t, userId); }
        RowsNotOf(a, userId) + RowsNotOf(b, userId);
      }
    }
  }

  lemma {:induction false} RowsOfOwn(rows: seq<ConfigRow>, userId: string)
    requires forall k :: 0 <= k < |rows| ==> rows[k].userId == userId
    ensures RowsOf(rows, userId) == rows && RowsNotOf(rows, userId) == []
  {
    if |rows| > 0 {
      RowsOfOwn(rows[1..], userId);
    }
  }

  lemma {:induction false} RowsNotOfIdempotent(rows: seq<ConfigRow>, userId: string)
    ensures RowsOf(RowsNotOf(rows, userId), userId) == []
    ensures RowsNotOf(RowsNotOf(rows, userId), userId) == RowsNotOf(rows, userId)
  {
    if |rows| > 0 {
      RowsNotOfIdempotent(rows[1..], userId);
    }
  }

  /** After the replace, reading the user's rows back gives exactly the new
      rows, and every other user's rows are as they were. */
  lemma ReplaceReadsBack(rows: seq<ConfigRow>, userId: string, created: seq<ConfigRow>)
    requires forall k :: 0 <= k < |created| ==> created[k].userId == userId
    ensures RowsOf(RowsNotOf(rows, userId) + created, userId) == created
    ensures RowsNotOf(RowsNotOf(rows, userId) + created, userId) == RowsNotOf(rows, userId)
  {
    RowsOfAppend(RowsNotOf(rows, userId), created, userId);
    RowsNotOfAppend(RowsNotOf(rows, userId), created, userId);
    RowsOfOwn(created, userId);
    RowsNotOfIdempotent(rows, userId);
  }

  /** Where the loop stops, whether at the end or on a throwing entry, the
      run so far is the run of all the outcomes. */
  lemma RunFinished(os: seq<Outcome>, k: nat)
    requires k <= |os| && (k == |os| || Run(os[..k]).1)
    ensures Run(os) == Run(os[..k])
  {
    if k == |os| {
      assert os[..k] == os;
    } else {
      RunStaysFailed(os, k);
    }
  }

  /** The body carries `skillTreeConfig` as an array. */
  predicate ConfigArray(body: Json) {
    body.JObj? && "skillTreeConfig" in body.fields && body.fields["skillTreeConfig"].JArr?
  }

  /** The POST loop: one row per entry that passes the check, in entry
      order, stopping at the first entry that throws. */
  method CreateRows(db: Database, userId: string, entries: seq<Json>) returns (created: seq<ConfigRow>, failed: bool)
    modifies db
    ensures db.users == old(db.users) && db.levels == old(db.levels) && db.skills == old(db.skills)
    ensures created == NewRows(userId, Plan(entries).0, old(db.nextConfigId)) && failed == Plan(entries).1
    ensures db.configs == old(db.configs) + created
    ensures db.nextConfigId == old(db.nextConfigId) + |created|
  {
    ghost var firstId := db.nextConfigId;
    ghost var os := Outcomes(entries);
    ghost var planned: seq<Placement> := [];
    created := [];
    failed := false;
    var k := 0;
    while k < |entries| && !failed
      invariant 0 <= k <= |entries|
      invariant Run(os[..k]).0 == planned && Run(os[..k]).1 == failed
      invariant created == NewRows(userId, planned, firstId)
      invariant db.nextConfigId == firstId + |created|
      invariant db.configs == old(db.configs) + created
      invariant db.users == old(db.users) && db.levels == old(db.levels) && db.skills == old(db.skills)
    {
      var outcome := Classify(entries[k]);
      assert outcome == os[k];
      RunStep(os, k);
      if outcome.Fail? {
        failed := true;
        assert Run(os[..k + 1]) == (planned, failed);
      } else if outcome.Create? {
        var p := outcome.placement;
        assert |created| == |planned|;
        var row := db.CreateConfig(userId, p.levelId, p.skillId, p.position);
        assert row == ConfigRow(firstId + |planned|, userId, p.levelId, p.skillId, p.position);
        NewRowsAppend(userId, planned, p, firstId);
        planned := planned + [p];
        created := created + [row];
        assert Run(os[..k + 1]) == (planned, failed);
        assert created == NewRows(userId, planned, firstId);
      } else {
        assert Run(os[..k + 1]) == (planned, failed);
      }
      k := k + 1;
    }
    RunFinished(os, k);
  }

  /** The replace itself: delete the user's rows, then run the loop; a
      throwing entry answers 500 and leaves the rows created before it. */
  method Replace(db: Database, userId: string, entries: seq<Json>) returns (r: Result<seq<ConfigRow>, Status>)
    modifies db
    ensures db.users == old(db.users) && db.levels == old(db.levels) && db.skills == old(db.skills)
    ensures r.Ok? || r == Err(InternalError)
    ensures r.Ok? <==> !Plan(entries).1
    ensures var created := NewRows(userId, Plan(entries).0, old(db.nextConfigId));
      && (r.Ok? ==> r.value == created)
      && db.configs == RowsNotOf(old(db.configs), userId) + created
      && db.nextConfigId == old(db.nextConfigId) + |created|
  {
    db.configs := RowsNotOf(db.configs, userId);
    var created, failed := CreateRows(db, userId, entries);
    r := if failed then Err(InternalError) else Ok(created);
  }

  /** POST: 401 without a session user, 500 for a `null` body, 400 unless
      `skillTreeConfig` is an array, 404 for an unknown user; otherwise the
      replace. */
  method Post(db: Database, session: Option<string>, body: Json) returns (r: Result<seq<ConfigRow>, Status>)
    modifies db
    ensures db.users == old(db.users) && db.levels == old(db.levels) && db.skills == old(db.skills)
    ensures SessionUser(session).None? ==> r == Err(Unauthorized)
    ensures SessionUser(session).Some? && body.JNull? ==> r == Err(InternalError)
    ensures SessionUser(session).Some? && !body.JNull? && !ConfigArray(body) ==> r == Err(BadRequest)
    ensures SessionUser(session).Some? && ConfigArray(body) && UserIndex(db.users, session.value) == -1 ==>
      r == Err(NotFound)
    ensures !(SessionUser(session).Some? && ConfigArray(body) && UserIndex(db.users, session.value) >= 0) ==>
      db.configs == old(db.configs) && db.nextConfigId == old(db.nextConfigId)
    ensures SessionUser(session).Some? && ConfigArray(body) && UserIndex(db.users, session.value) >= 0 ==>
      var userId := db.users[UserIndex(db.users, session.value)].id;
      var plan := Plan(body.fields["skillTreeConfig"].items);
      var created := NewRows(userId, plan.0, old(db.nextConfigId));
      && (r.Ok? <==> !plan.1)
      && (r.Err? ==> r == Err(InternalError))
      && (r.Ok? ==> r.value == created)
      && db.configs == RowsNotOf(old(db.configs), userId) + created
      && RowsOf(db.configs, userId) == created
      && RowsNotOf(db.configs, userId) == RowsNotOf(old(db.configs), userId)
  {
    var name := SessionUser(session);
    if name.None? {
      return Err(Unauthorized);
    }
    var field := Destructure(body, "skillTreeConfig");
    if field.Err? {
      return Err(field.error);
    }
    if field.value.None? || !field.value.value.JArr? {
      return Err(BadRequest);
    }
    var i := UserIndex(db.users, name.value);
    if i == -1 {
      return Err(NotFound);
    }
    r := Replace(db, db.users[i].id, field.value.value.items);
    ReplaceReadsBack(old(db.configs), db.users[i].id,
                     NewRows(db.users[i].id, Plan(field.value.value.items).0, old(db.nextConfigId)));
  }

}
