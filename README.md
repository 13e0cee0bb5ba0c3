# Skill Tracker — a verified model of its core

Skill Tracker is a web app in which a user earns experience and climbs
numbered levels ("Level 1", "Level 2", …). Each level has an experience cost
and room for a number of new skills. The user arranges catalog skills into a
skill tree, one list per level plus a list of unassigned skills. A skill is
unlocked once the user's experience covers its cost.

This project models, in Dafny, the logic behind that behaviour:

- **The progress endpoint** (`ProgressRoute`). POST adds experience points
  and runs the level-up loop; it also picks the cost of the next level and
  splits the current level's skills into unlocked and locked. GET reports the
  same values without writing.
- **The skill-tree endpoint** (`SkillTreeRoute`). GET groups the user's
  configuration rows per level, sorts them by position and lists the
  unassigned catalog skills. POST deletes the user's rows, then creates one
  row per well-formed submitted entry.
- **The user-skills endpoint** (`UserSkillsRoute`). It lists the placed
  skills with their unlock flag, or the whole catalog, locked, when nothing
  is placed.
- **The experience endpoint** (`ExperienceRoute`). It keeps a per-user JSON
  file. POST adds a change clamped at zero; GET reads the stored value.
- **The experience bar** (`ExperienceBar`). It computes the percentage, over
  reals.
- **The skill-tree editor page** (`SkillTreeEditor`). This covers:
  - the drop handler: reorder within a list, move between lists with a
    capacity check, and refuse a full level;
  - removing a skill to the unassigned list;
  - flattening the tree into the saved configuration;
  - the item-to-container map.
- **The JSON-file store** (`JsonDb`):
  - per-table create, update, delete, find and upsert;
  - the fallback of an unreadable file to the empty table;
  - regrouping a user's configuration rows by level.

Supporting modules:

- `Common`: option/result values, HTTP error statuses, JSON values with
  JavaScript truthiness, and first-match search.
- `Schema`: the relational records, the `Database` object and the join of
  configuration rows with their level and skill.
- `LevelNames`: the `Level ${n}` names; distinct numbers give distinct names.

State that the source changes in place is modelled as a class with `seq`
fields and `modifies` clauses:

- `Schema.Database`: the tables the route handlers read and write;
- `ExperienceRoute.UserFiles`: the per-user files;
- `JsonDb.Store`: one field per table file;
- `SkillTreeEditor.Editor`: the editor page's state.

Fresh ids, the current time and the session's user name are parameters.

## Model

| member | source | states |
|---|---|---|
| Common.Destructure | src/app/api/user/progress/route.ts:110 | destructuring `null` throws (500), and only `null` does; an object holding the key gives exactly that field; every other non-null value gives nothing |
| Common.SessionUser | src/app/api/user/progress/route.ts:11-13 | the request has a user exactly when the session name is set and non-empty |
| Common.FirstIndex | src/app/api/user/progress/route.ts:17-19 | `findIndex`: -1 iff no element matches, otherwise the first matching index |
| Common.RemoveAt | src/lib/jsonDb.ts:171-172 | `splice(i, 1)`: the elements before `i` stay, the rest shift down by one, exactly one copy of the element goes |
| LevelNames.NatToString | src/app/api/user/progress/route.ts:137 | the decimal rendering is digits only, one digit exactly for numbers below ten |
| LevelNames.IntToString | src/app/api/user/progress/route.ts:137 | `${n}` starts with '-' exactly for negative numbers |
| LevelNames.NatToStringInjective | src/app/api/user/progress/route.ts:137 | equal decimal renderings come from equal numbers |
| LevelNames.IntToStringInjective | src/app/api/user/progress/route.ts:137 | equal renderings of integers come from equal integers |
| LevelNames.LevelNameInjective | src/app/api/user/progress/route.ts:137 | `Level ${a}` equals `Level ${b}` if and only if a == b |
| Schema.ImageOrPlaceholder | src/app/api/user/skills/route.ts:57 | a set, non-empty image URL is kept; otherwise the placeholder image |
| Schema.ViewOf | src/app/api/skill-tree/route.ts:48-54 | the reported skill copies id, name and cost, uses the image or placeholder, and is unlocked iff experience ≥ cost |
| Schema.UserIndex | src/app/api/skill-tree/route.ts:17-24 | the user lookup by username: -1 iff no such user, otherwise a user with that name |
| Schema.LevelById | src/app/api/skill-tree/route.ts:36-42 | the level a row refers to: none iff absent, otherwise a catalog level with that id |
| Schema.SkillById | src/app/api/user/skills/route.ts:51-56 | the skill a row refers to: none iff absent, otherwise a catalog skill with that id |
| Schema.Join | src/app/api/skill-tree/route.ts:36-42 | each joined row is one of the user's rows, with the level and skill it names |
| Schema.JoinComplete | src/app/api/skill-tree/route.ts:36-42 | when every row's level and skill exist, the join has one entry per user row, in row order |
| Schema.RowsOf | src/app/api/user/skills/route.ts:30-36 | a row is kept iff it belongs to the user |
| Schema.RowsNotOf | src/app/api/skill-tree/route.ts:112-114 | `deleteMany`: a row survives iff it belongs to another user |
| Schema.Database.CreateConfig | src/app/api/skill-tree/route.ts:125-132 | `create` appends one row for the user, level, skill and position under the next fresh id and changes no other table |
| ProgressRoute.LevelNamed | src/app/api/user/progress/route.ts:137 | none iff no catalog level carries the name `Level ${n}`, otherwise a catalog level with that name |
| ProgressRoute.PaidStep | src/app/api/user/progress/route.ts:143-146 | one more affordable level extends the run of paid levels |
| ProgressRoute.UseUp | src/app/api/user/progress/route.ts:136-150 | entering the next level uses up a catalog entry not used before (the loop's termination measure) |
| ProgressRoute.Advance | src/app/api/user/progress/route.ts:137-146 | entering the next affordable level keeps every level paid for, experience conserved, a non-negative balance non-negative, and uses up one catalog entry |
| ProgressRoute.LevelUp | src/app/api/user/progress/route.ts:131-150 | the loop never lowers the level, reports a level-up iff the level rose, pays for each level entered, conserves experience (start = left + paid), stops exactly when the next level is missing or unaffordable, and keeps a non-negative balance non-negative |
| ProgressRoute.ConfigLevelNamed | src/app/api/user/progress/route.ts:47-49 | none iff no configuration row's level is named `Level ${n}`, otherwise that row's level |
| ProgressRoute.NextLevelCost | src/app/api/user/progress/route.ts:41-62 | the configuration's next-level cost when it has one; otherwise the catalog's, with 10 when that is missing or 0 |
| ProgressRoute.NextCostIsNextStep | src/app/api/user/progress/route.ts:170-191 | with consistent data, the reported next cost is exactly what the loop would charge for the next level |
| ProgressRoute.AtLevel | src/app/api/user/progress/route.ts:64-67 | the current level's rows are exactly the rows whose level name is `Level ${n}`, kept in joined order since it is the generic filter |
| ProgressRoute.Views | src/app/api/user/progress/route.ts:74-80 | one reported skill per row, at the same position, each the row's skill with its image or the placeholder |
| ProgressRoute.PartitionSplits | src/app/api/user/progress/route.ts:64-86 | every skill lands in exactly one list, unlocked iff experience ≥ its cost, with counts and multiplicities conserved; each list is the views of the rows that pass its test, in row order |
| ProgressRoute.ViewsFilterSnoc | src/app/api/user/progress/route.ts:73-86 | filtering one more row onto the end adds its view exactly when it passes |
| ProgressRoute.UnlockedInOrder | src/app/api/user/progress/route.ts:73-86 | the unlocked list is the views of the affordable rows, in row order |
| ProgressRoute.LockedInOrder | src/app/api/user/progress/route.ts:73-86 | the locked list is the views of the unaffordable rows, in row order |
| ProgressRoute.Partition | src/app/api/user/progress/route.ts:193-215 | the two loops build exactly the unlocked and locked lists |
| ProgressRoute.Points | src/app/api/user/progress/route.ts:110-114 | a positive number of points is accepted and is exactly the value returned; a `null` body is 500; any other body is 400 |
| ProgressRoute.Get | src/app/api/user/progress/route.ts:7-99 | 401 without a user, 404 for an unknown user, and success for every known user: the stored level and experience with the next cost and the skill split; nothing is written |
| ProgressRoute.Post | src/app/api/user/progress/route.ts:101-224 | 401/400/500/404 write nothing, and a known user with valid points always succeeds; then only the user's level and experience change, every level passed exists and was affordable when entered, paid plus kept experience equals old experience plus points, the climb stops at the first missing or unaffordable level, and the answer carries that result |
| SkillTreeRoute.InsertAddsOne | src/app/api/skill-tree/route.ts:45-47 | inserting adds exactly one copy of the row and loses none |
| SkillTreeRoute.InsertKeepsSorted | src/app/api/skill-tree/route.ts:45-47 | inserting into a list sorted by position keeps it sorted |
| SkillTreeRoute.SortByPosition | src/app/api/skill-tree/route.ts:45-47 | the result is sorted by position and a permutation of the input |
| SkillTreeRoute.InsertKeepsTies | src/app/api/skill-tree/route.ts:45-47 | insertion keeps the order of rows with equal positions |
| SkillTreeRoute.SortIsStable | src/app/api/skill-tree/route.ts:45-47 | the sort is stable: rows with the same position keep their relative order |
| SkillTreeRoute.OfLevel | src/app/api/skill-tree/route.ts:44-45 | a level's rows are exactly the user's rows with that level id, in row order and with their multiplicity (the order-keeping filter), so the stable sort that follows keeps ties in row order |
| SkillTreeRoute.SkillsOf | src/app/api/skill-tree/route.ts:48-54 | one reported skill per row, in order, unlocked iff experience ≥ cost |
| SkillTreeRoute.LevelsWithSkills | src/app/api/skill-tree/route.ts:44-63 | one entry per catalog level in catalog order, copying its fields, with its rows sorted by position |
| SkillTreeRoute.UnassignedSkills | src/app/api/skill-tree/route.ts:66-75 | the catalog skills no row places, in catalog order and each once per catalog entry, each reported with its unlock flag (the filter of the catalog, mapped to views) |
| SkillTreeRoute.UnassignedMembers | src/app/api/skill-tree/route.ts:66-75 | no reported skill is placed by a row, each comes from the catalog, and every unplaced catalog skill is reported |
| SkillTreeRoute.Get | src/app/api/skill-tree/route.ts:7-85 | 401 without a user, 404 for an unknown user, and success for every known user with the levels, their skills and the unassigned skills |
| SkillTreeRoute.Classify | src/app/api/skill-tree/route.ts:117-132 | a `null` entry throws; an entry is skipped iff it fails the id/position check; a passing entry with string ids creates exactly the row with those ids and its position; one with a non-string id throws |
| SkillTreeRoute.Outcomes | src/app/api/skill-tree/route.ts:117-135 | one outcome per entry, in entry order |
| SkillTreeRoute.RunStep | src/app/api/skill-tree/route.ts:117-135 | one more entry: a throw stops the loop, a skip changes nothing, a creation appends its row |
| SkillTreeRoute.RunStaysFailed | src/app/api/skill-tree/route.ts:117-135 | after a throw, later entries change nothing |
| SkillTreeRoute.RunFinished | src/app/api/skill-tree/route.ts:117-135 | wherever the loop stops, at the end or on a throw, what it created is what the whole run creates |
| SkillTreeRoute.RunSound | src/app/api/skill-tree/route.ts:117-135 | the loop fails iff some entry throws; every created row comes from an entry; without a throw every passing entry gets its row |
| SkillTreeRoute.PlanSound | src/app/api/skill-tree/route.ts:117-135 | the same three facts stated over the submitted entries |
| SkillTreeRoute.NewRows | src/app/api/skill-tree/route.ts:125-132 | the k-th created row has the k-th fresh id, the user and the k-th placement |
| SkillTreeRoute.NewRowsAppend | src/app/api/skill-tree/route.ts:125-134 | creating one more row appends it with the next id |
| SkillTreeRoute.CreateRows | src/app/api/skill-tree/route.ts:116-135 | the loop creates exactly the planned rows, in entry order with consecutive fresh ids, appends them to the table, and reports a throw iff the plan has one |
| SkillTreeRoute.RowsOfAppend | src/app/api/skill-tree/route.ts:112-134 | reading a user's rows distributes over appended tables |
| SkillTreeRoute.RowsNotOfAppend | src/app/api/skill-tree/route.ts:112-134 | deleting a user's rows distributes over appended tables |
| SkillTreeRoute.RowsOfOwn | src/app/api/skill-tree/route.ts:125-132 | rows that all belong to the user read back unchanged and none survive a delete |
| SkillTreeRoute.RowsNotOfIdempotent | src/app/api/skill-tree/route.ts:112-114 | after the delete the user has no rows, and deleting again changes nothing |
| SkillTreeRoute.ReplaceReadsBack | src/app/api/skill-tree/route.ts:112-135 | after delete-then-create, the user's rows are exactly the created ones and other users' rows are as before |
| SkillTreeRoute.Replace | src/app/api/skill-tree/route.ts:112-135 | configs become the other users' rows plus the created rows, with fresh ids; the answer is the created rows, or 500 iff some entry threw (rows created before it stay) |
| SkillTreeRoute.Post | src/app/api/skill-tree/route.ts:87-146 | 401/500/400/404 change no configuration; otherwise the replace, after which reading the user's rows gives the created rows and other users' rows are unchanged |
| UserSkillsRoute.AllLocked | src/app/api/user/skills/route.ts:38-48 | the whole catalog, in order, fields copied, image or placeholder, all locked |
| UserSkillsRoute.PlacedSkills | src/app/api/user/skills/route.ts:51-62 | at most one view per row, each the view of a catalog skill |
| UserSkillsRoute.PlacedSkillsComplete | src/app/api/user/skills/route.ts:51-62 | when every row's skill exists, exactly one view per row, of that skill, unlocked iff experience ≥ cost |
| UserSkillsRoute.Get | src/app/api/user/skills/route.ts:7-67 | 401 without a user, 404 for an unknown user, and success for every known user; no rows gives the locked catalog, otherwise the placed skills |
| ExperienceRoute.NewExperience | src/app/api/user/experience/route.ts:78 | the new experience is never negative, never below the plain sum, and equals it iff the sum is not negative |
| ExperienceRoute.UserFiles.ReadUserExperience | src/app/api/user/experience/route.ts:14-23 | a parsed object whose `experience` is a number reads as that number; every other file (missing, unparsable, not an object, field absent or not a number) reads as 0 |
| ExperienceRoute.UserFiles.WriteUserExperience | src/app/api/user/experience/route.ts:27-54 | a missing file is created as `{username, experience: 0}` first; an object gets `experience` set and keeps its other fields; an array is rewritten unchanged; any other content fails and nothing is written |
| ExperienceRoute.UserFiles.Get | src/app/api/user/experience/route.ts:96-117 | 401 without a user, and otherwise always success with the stored experience |
| ExperienceRoute.UserFiles.Post | src/app/api/user/experience/route.ts:31-93 | 401, 500 for `null`, 400 unless the change is a number, 500 when the write fails, all writing nothing; success iff there is a user, a numeric change and a file that is missing or holds an object or array; the answer is the clamped new value, the change and the previous value; on success the caller's object file (created as `{username, experience: 0}` when missing) gets the new `experience` and keeps its other fields, an array file is written back unchanged, the new value reads back, and other users' files are unchanged |
| ExperienceBar.Percentage | src/components/ExperienceBar.tsx:12-14 | between 0 and 100; 0 when nothing is needed or nothing is earned; 100 once the need is covered; current/needed·100 in between |
| ExperienceBar.PercentageMonotonic | src/components/ExperienceBar.tsx:12-14 | more experience never shrinks the bar |
| SkillTreeEditor.LevelIndex | src/app/skill-tree/page.tsx:450-454 | `findIndex` on level ids: -1 iff absent, otherwise the first level with the id |
| SkillTreeEditor.SkillIndex | src/app/skill-tree/page.tsx:445-462 | `findIndex` on skill ids: -1 iff absent, otherwise the first skill with the id |
| SkillTreeEditor.Without | src/app/skill-tree/page.tsx:497-511 | the filter keeps exactly the skills with another id, and never lengthens the list |
| SkillTreeEditor.WithoutUnique | src/app/skill-tree/page.tsx:497-511 | when the id occurs once, the filter removes exactly that one skill |
| SkillTreeEditor.WithoutShrinks | src/app/skill-tree/page.tsx:497-511 | filtering out an id the list holds shortens it |
| SkillTreeEditor.WithoutAbsent | src/app/skill-tree/page.tsx:497-511 | filtering out an absent id changes nothing |
| SkillTreeEditor.PlaceAt | src/app/skill-tree/page.tsx:514-523 | the skill goes in at the drop index, or last when the index is -1 or past the end; the rest keep their order |
| SkillTreeEditor.Splice | src/app/skill-tree/page.tsx:548-552 | `splice(i, 0, x)`: x goes in at i, or last when i is past the end |
| SkillTreeEditor.SpliceUndoesRemove | src/app/skill-tree/page.tsx:548-552 | splicing a removed skill back at its old index restores the list |
| SkillTreeEditor.ArrayMove | src/app/skill-tree/page.tsx:472-494 | `arrayMove` keeps length and contents, and the moved skill ends at the target index (last when past the end) |
| SkillTreeEditor.InLevelsUpdate | src/app/skill-tree/page.tsx:504-509 | replacing one level's list changes the skills held by the levels by exactly that difference |
| SkillTreeEditor.SaveConfigLayout | src/app/skill-tree/page.tsx:592-598 | level i's skill j is saved at offset(i) + j as (level id, skill id, position j): levels in order, positions 0..n-1 |
| SkillTreeEditor.OffsetGrows | src/app/skill-tree/page.tsx:592-598 | a level's block of entries fits inside the flattened configuration |
| SkillTreeEditor.LevelEntries | src/app/skill-tree/page.tsx:593-597 | one entry per skill of the level, with positions 0, 1, … |
| SkillTreeEditor.SaveConfig | src/app/skill-tree/page.tsx:592-598 | the configuration has one entry per assigned skill |
| SkillTreeEditor.SaveRequest | src/app/skill-tree/page.tsx:592-607 | the save is skipped iff no skill is assigned; otherwise it sends the flattened configuration |
| SkillTreeEditor.Ids | src/app/skill-tree/page.tsx:217-219 | the ids held by a list |
| SkillTreeEditor.MapLevels | src/app/skill-tree/page.tsx:216-220 | the keys are the earlier keys plus every level skill's id; an id no level holds keeps its earlier entry |
| SkillTreeEditor.ItemsMap | src/app/skill-tree/page.tsx:207-223 | the keys are exactly the ids of unassigned and level skills; an id no level holds maps to `"unassigned"` |
| SkillTreeEditor.ItemsMapLastLevelWins | src/app/skill-tree/page.tsx:210-220 | an id maps to the last level holding it, overriding earlier levels and the unassigned list |
| SkillTreeEditor.MapLevelsAdds | src/app/skill-tree/page.tsx:216-220 | the last level's skills map to that level |
| SkillTreeEditor.MapLevelsKeeps | src/app/skill-tree/page.tsx:216-220 | an id the last level does not hold keeps its entry |
| SkillTreeEditor.SkillsOf | src/app/skill-tree/page.tsx:445-462 | a container's list: the unassigned list, the level's list, or nothing for an unknown level |
| SkillTreeEditor.WithSkillsEffect | src/app/skill-tree/page.tsx:487-509 | replacing one list keeps the level shape, changes only that list, and changes the board's contents by exactly the difference |
| SkillTreeEditor.LevelIndexSameIds | src/app/skill-tree/page.tsx:526 | the level lookup sees only the ids, which drops never change |
| SkillTreeEditor.WithinEffect | src/app/skill-tree/page.tsx:472-494 | a same-list drop keeps every list's length and the board's contents, moves the skill to the drop index, touches no other list, and does nothing without an index |
| SkillTreeEditor.WithinKeepsCapacity | src/app/skill-tree/page.tsx:472-494 | a same-list drop keeps the level shape and takes no level above its old size |
| SkillTreeEditor.Across | src/app/skill-tree/page.tsx:497-572 | auto-save iff no error; the error is raised iff the target level is full, with the "Level … is full" text |
| SkillTreeEditor.WithSkillsCapacity | src/app/skill-tree/page.tsx:530-558 | a list no longer than the level's old size or capacity keeps the board within capacity |
| SkillTreeEditor.AcrossKeepsCapacity | src/app/skill-tree/page.tsx:524-572 | a move between lists never takes a level above the larger of its old size and `newSkillCount` |
| SkillTreeEditor.AcrossMoves | src/app/skill-tree/page.tsx:497-572 | into a list that takes it: the skill leaves its source, goes in at the drop index (last for -1 or past the end), other lists are untouched, and with a unique id every skill stays on the board exactly as often |
| SkillTreeEditor.AcrossRefusedFromLevel | src/app/skill-tree/page.tsx:530-558 | a full target refuses the skill; a level source gets it spliced back at its old index; other lists are untouched |
| SkillTreeEditor.AcrossRefusedRestores | src/app/skill-tree/page.tsx:530-558 | with a unique id, a refused move from a level leaves the board as it was |
| SkillTreeEditor.AcrossRefusedFromUnassigned | src/app/skill-tree/page.tsx:498-539 | a refused move from the unassigned list appends the skill to the pre-drag list, which then holds it twice |
| SkillTreeEditor.AcrossUnknownTargetLoses | src/app/skill-tree/page.tsx:497-580 | a drop onto an unknown level still removes the skill from its source and schedules the save with no error; other lists are untouched, so with a unique id the board ends one copy short |
| SkillTreeEditor.DragEndResult | src/app/skill-tree/page.tsx:360-580 | no target, no source, a cross-list drop in sorting mode, or an unknown skill changes nothing and schedules no save; an error never comes with a save; a same-list drop saves |
| SkillTreeEditor.DragEndKeepsCapacity | src/app/skill-tree/page.tsx:360-580 | no drop changes level ids, names or capacities, or takes a level above its capacity |
| SkillTreeEditor.Unassign | src/app/skill-tree/page.tsx:636-643 | nothing happens iff the level is unknown or does not hold the skill |
| SkillTreeEditor.UnassignMoves | src/app/skill-tree/page.tsx:636-658 | the level loses the id, the skill goes last in the unassigned list, other levels are untouched, capacity holds |
| SkillTreeEditor.UnassignConserves | src/app/skill-tree/page.tsx:636-652 | with a unique id, every skill stays on the board exactly as often as before |
| SkillTreeEditor.Editor.DragEnd | src/app/skill-tree/page.tsx:360-580 | the editor's lists become the drop's result, its error is set when the drop raises one, and capacity holds |
| SkillTreeEditor.Editor.RemoveFromLevel | src/app/skill-tree/page.tsx:636-658 | the editor's lists become the removal's result; the save is scheduled iff something was removed |
| JsonDb.ReadData | src/lib/jsonDb.ts:104-112 | an unreadable file reads as the empty table, a readable one as its records |
| JsonDb.IndexOf | src/lib/jsonDb.ts:149-150 | `findIndex` by id: -1 iff absent, otherwise the first record with the id |
| JsonDb.FindUniqueUser | src/lib/jsonDb.ts:126-132 | the first user matching a non-empty id or username, none iff no user matches, none when neither key is given |
| JsonDb.FindFirstLevel | src/lib/jsonDb.ts:189-194 | the first level with the given non-empty name, none otherwise |
| JsonDb.FindFirstSkill | src/lib/jsonDb.ts:239-244 | the first skill with the given non-empty name, none otherwise |
| JsonDb.FindUniqueSession | src/lib/jsonDb.ts:300-303 | the first session with the id, none iff absent |
| JsonDb.FindManySessions | src/lib/jsonDb.ts:305-311 | all sessions when no user id is given; otherwise exactly that user's sessions, in stored order and with their multiplicity (the order-keeping filter of the table) |
| JsonDb.MergeUser | src/lib/jsonDb.ts:152-156 | supplied fields overwrite, others are kept, `updatedAt` becomes now; an empty patch only stamps the time |
| JsonDb.MergeLevel | src/lib/jsonDb.ts:212-215 | supplied fields overwrite, others are kept; an empty patch changes nothing |
| JsonDb.MergeSkill | src/lib/jsonDb.ts:262-265 | supplied fields overwrite, others are kept; an empty patch changes nothing |
| JsonDb.CreateKeepsIdsDistinct | src/lib/jsonDb.ts:134-145 | appending a record with a fresh id keeps the ids distinct |
| JsonDb.DeleteRemovesTheId | src/lib/jsonDb.ts:166-175 | with distinct ids, after the delete no record has the id and the ids stay distinct |
| JsonDb.SkillIdsFor | src/lib/jsonDb.ts:360-371 | a skill id is listed for a level iff some row places that skill in that level |
| JsonDb.SkillIdsInOrder | src/lib/jsonDb.ts:360-371 | a level's skill ids are the ids of the rows placed in it, in row order (the filter of the rows, mapped to skill ids) |
| JsonDb.ConfigsOf | src/lib/jsonDb.ts:346-348 | the user's rows, in stored order (the filter of the rows by owner) |
| JsonDb.Regroup | src/lib/jsonDb.ts:374-382 | one entry per catalog level, in catalog order, with that level's placed skill ids |
| JsonDb.RegroupComplete | src/lib/jsonDb.ts:360-382 | every row placed in a catalog level shows up in that level's entry |
| JsonDb.NothingPlaced | src/lib/jsonDb.ts:375 | a level no row names gets an empty list |
| JsonDb.GroupByLevel | src/lib/jsonDb.ts:360-371 | the map's keys are exactly the level ids rows name, each with its skill ids in row order |
| JsonDb.LevelsOf | src/lib/jsonDb.ts:374-382 | the second loop builds exactly the regrouped levels |
| JsonDb.Store.UserCreate | src/lib/jsonDb.ts:134-145 | one user with the fresh id and both timestamps is appended; the rest is unchanged |
| JsonDb.Store.UserUpdate | src/lib/jsonDb.ts:147-160 | "not found" and nothing written when the id is absent; otherwise only the first user with the id changes, to the merge |
| JsonDb.Store.UserDelete | src/lib/jsonDb.ts:166-175 | "not found" and nothing written when the id is absent; otherwise exactly that user is removed and returned, the rest in order |
| JsonDb.Store.UserUpsert | src/lib/jsonDb.ts:177-184 | the user found by username is updated, or a new one is created when there is none, never both |
| JsonDb.Store.LevelCreate | src/lib/jsonDb.ts:196-205 | one level with the fresh id is appended |
| JsonDb.Store.LevelUpdate | src/lib/jsonDb.ts:207-219 | "not found" when absent; otherwise only the first level with the id changes, to the merge |
| JsonDb.Store.LevelDelete | src/lib/jsonDb.ts:225-234 | "not found" when absent; otherwise exactly that level is removed and returned |
| JsonDb.Store.SkillCreate | src/lib/jsonDb.ts:246-255 | one skill with the fresh id is appended |
| JsonDb.Store.SkillUpdate | src/lib/jsonDb.ts:257-269 | "not found" when absent; otherwise only the first skill with the id changes, to the merge |
| JsonDb.Store.SkillDelete | src/lib/jsonDb.ts:275-284 | "not found" when absent; otherwise exactly that skill is removed and returned |
| JsonDb.Store.SessionCreate | src/lib/jsonDb.ts:289-298 | one session with the fresh id is appended |
| JsonDb.Store.SessionDelete | src/lib/jsonDb.ts:313-322 | "not found" when absent; otherwise exactly that session is removed and returned |
| JsonDb.Store.SkillTreeConfigFindUnique | src/lib/jsonDb.ts:327-389 | null when the configuration file is unreadable, the user is unknown or has no rows; otherwise the user's rows regrouped per catalog level |

## Left out

- Prisma, next-auth, `NextResponse` and the `fs` calls. Tables and files are sequences and maps. Fresh ids, timestamps and the session's user name are parameters.
- The database's ordering (`orderBy` on levels). The skill-tree GET sorts levels by name and the progress routes sort them by cost. The model takes the level order as an unconstrained input that every handler shares, so results that follow level order follow the table's order.
- JavaScript numbers are integers. `ExperienceBar.Percentage` uses exact reals, not IEEE rounding.
- The database's foreign keys are not modelled. A configuration row whose level or skill is missing is dropped from joins. The completeness lemmas assume every row's level and skill exist.
- ExperienceRoute.UserFiles.ReadUserExperience: a truthy `experience` that is not a number (a string, say) reads as 0 here, not as that value.
- JsonDb.SkillIdsFor: its own contract states membership only. The row order is stated by the lemma `JsonDb.SkillIdsInOrder`. Keeping it out of the function keeps the proofs of the `findUnique` loops small.
- JsonDb: a file that parses to something other than an array is not modelled. A table file is either an array of records or unreadable.
- `findMany` over users, levels and skills in the JSON store returns the table as it is. That is `ReadData` and needs no separate member.
- `initializeDb` and the reset of a file are file-system setup and are not modelled.
- The editor's dnd-kit wiring is not modelled: sensors, container detection from the drag data, `handleDragOver`, and DOM classes. The drop target is given as its container and index. Containers are only the unassigned list and levels, because the item map produces no other kind.
- The editor's `setTimeout` auto-save and the `fetch` of the save are not modelled. Drops and removals return whether the save is scheduled, and `SaveRequest` gives the body sent.
- SkillTreeEditor.Editor.DragEnd: the level objects the page shares between the old and new arrays, and mutates, are modelled by value. The result agrees with the page because the final state takes the mutated source list into account.
- Concurrency is not modelled: overlapping requests racing on the JSON files or the database.
- The old compiled copy of the JSON store, the DOM drag-and-drop components, the admin routes, the presentational pages and the seed scripts are not part of this model.
- SkillTreeRoute.Post is not atomic. The source's comments describe a replace, but an entry that throws gives 500 after earlier rows were created. The model follows the code.
