# Quest list logic of the quiz front end

This project models the pure logic in the quiz platform's front end that decides
which quests are open and what the player and admin list pages show. It covers:

- the records of `types/quest.ts`: quest metadata, the closed three-way question kind,
  options, the one-or-many `correct_answer`, and settings in which only the time limit is optional;
- `isQuestActive`, the inclusive active-window test. The clock reading is passed in as
  `now`. A stored bound holds the value `new Date(text)` gives, which is a millisecond count or an
  Invalid Date. Every comparison with an Invalid Date is false, so a quest with an
  unparseable bound is never open;
- the player's quest page. It splits the list into open and past quests. It cuts card
  descriptions at 100 characters. It selects a quest by the `id` query parameter, where a
  missing or empty parameter means no id. It picks the screen: not found, detail or list.
  It also builds the play link, which is scored inside the window and practice outside it;
- the admin page. It covers the delete flow (confirmation declined, pending, success,
  failure), the notice shown afterwards, the disabled delete button, 50-character
  descriptions and the status badge.

Modules follow the source files: `QuestTypes` (types/quest.ts), `Quests`
(lib/quests.ts), `QuestsPage` (app/quests/page.tsx) and `AdminPage` (app/admin/page.tsx).
They share three helper modules. `Sequences` holds a generic `Filter` and `FindFirst` for
`Array.prototype.filter` and `find`, plus the merge predicate `Interleaving`, which states
"each part keeps its original order". `Descriptions` holds the description shortening. `Options`
holds the optional values.

React state is modelled as immutable records, and each state update is a function. On the
player page, the selection effect is a separate step from the commit that ends loading. This
matters: the frame committed when loading ends is the "not found" view for any id, and the
effect only then selects the quest (`QuestsPage.LoadCommitPrecedesSelection`).

## Model

| member | source | states |
|---|---|---|
| QuestTypes.TypeName | quiz-frontend/types/quest.ts:11 | each question kind's literal reads back as that kind, so the three literals are distinct |
| QuestTypes.ParseQuestionType | quiz-frontend/types/quest.ts:11 | a string is a question kind exactly when it is "single_choice", "multiple_choice" or "text" |
| QuestTypes.ParsedTypeNamesItself | quiz-frontend/types/quest.ts:11 | a string that parses as a kind is that kind's literal |
| Quests.IsActive | quiz-frontend/lib/quests.ts:3-9 | open iff both bounds are valid dates and from <= now <= to |
| Quests.ActiveAtBounds | quiz-frontend/lib/quests.ts:8 | both bounds are inclusive; one millisecond before the start or after the end is closed |
| Quests.MalformedWindowNeverActive | quiz-frontend/lib/quests.ts:8 | a window with from > to is closed at every instant |
| Quests.InvalidBoundNeverActive | quiz-frontend/lib/quests.ts:5-8 | an unparseable bound (NaN date) makes the quest closed at every instant |
| Quests.ActiveTimesAreConvex | quiz-frontend/lib/quests.ts:8 | the instants at which a quest is open form an interval |
| Quests.ActivityDependsOnlyOnWindow | quiz-frontend/lib/quests.ts:3-8 | quests with the same bounds are open at the same instants, whatever their other fields |
| QuestsPage.ActiveQuests | quiz-frontend/app/quests/page.tsx:89 | holds exactly the listed quests that are open, each of them open |
| QuestsPage.PastQuests | quiz-frontend/app/quests/page.tsx:90 | holds exactly the listed quests that are not open |
| QuestsPage.QuestListPartition | quiz-frontend/app/quests/page.tsx:89-90 | the list is an order-keeping merge of the two parts; lengths and multisets add up; no quest is in both |
| QuestsPage.QuestListSplitUnique | quiz-frontend/app/quests/page.tsx:89-90 | any order-keeping split into open and not-open quests is the one shown |
| QuestsPage.CardDescription | quiz-frontend/app/quests/page.tsx:157-159 | up to 100 characters unchanged; longer ones become their first 100 characters plus "..."; never over 103 |
| QuestsPage.FindById | quiz-frontend/app/quests/page.tsx:31 | nothing iff no quest has the id; otherwise the quest at the first position carrying it |
| QuestsPage.SelectQuest | quiz-frontend/app/quests/page.tsx:24-34 | no (or empty) id selects nothing; with an id and a loaded list, the first quest with that id (`FindById`), or nothing iff none has it; with an empty list, the previous selection stays |
| QuestsPage.SelectQuestIdempotent | quiz-frontend/app/quests/page.tsx:24-34 | running the selection effect again on the same inputs changes nothing |
| QuestsPage.Render | quiz-frontend/app/quests/page.tsx:47-81 | "not found" iff an id is given, loading is over and nothing is selected; a selected quest is shown as the detail screen and the detail screen shows only the selection; the list appears only with nothing selected, with the loading flag and the two parts |
| QuestsPage.HasQueryId | quiz-frontend/app/quests/page.tsx:25-27 | an id counts as given iff the parameter is present and non-empty (`!questId` is true for null and "") |
| QuestsPage.FinishLoading | quiz-frontend/app/quests/page.tsx:36-45 | loading ends; the list becomes the fetched one, or stays as it was when the fetch threw; the selection is untouched |
| QuestsPage.PageAfterLoad | quiz-frontend/app/quests/page.tsx:16-48 | after loading settles (or fails) and the effect runs, an id shows its first matching quest or "not found"; no id shows the split list |
| QuestsPage.LoadCommitPrecedesSelection | quiz-frontend/app/quests/page.tsx:36-48 | the render committed when loading ends, before the effect, is "not found" for any id |
| QuestsPage.PlayModeOf | quiz-frontend/app/quests/page.tsx:180-188 | scored iff the quest is open, practice iff it is not |
| QuestsPage.PlayRoute | quiz-frontend/app/quests/page.tsx:182-188 | the path starts with the quests route and the quest id, followed by "/play" when the quest is open and "/play?mode=practice" when it is not |
| QuestsPage.DecodePlayRoute | quiz-frontend/app/quests/page.tsx:184-186 | recovers the id and mode from a link of the shape `PlayRoute` builds; only paths under the quests route are accepted |
| QuestsPage.PlayRouteRoundTrip | quiz-frontend/app/quests/page.tsx:182-188 | the play link reads back as the quest's id and the mode its window dictates |
| QuestsPage.PlayRouteInjective | quiz-frontend/app/quests/page.tsx:182-188 | equal play links mean the same quest id and the same open/closed verdict |
| Descriptions.Truncate | quiz-frontend/app/admin/page.tsx:130-132 | short text unchanged; long text keeps its first `limit` characters and ends in "..."; length at most limit + 3 |
| Descriptions.TruncateUnchangedIff | quiz-frontend/app/quests/page.tsx:157-159 | text is shown as-is iff it is within the limit, or is limit + 3 long and already ends in "..." |
| Descriptions.TruncateLengthensIff | quiz-frontend/app/quests/page.tsx:157-159 | the shown text is longer than the original iff the original exceeds the limit by one or two characters |
| Descriptions.TruncateIdempotent | quiz-frontend/app/quests/page.tsx:157-159 | shortening a shortened text changes nothing |
| AdminPage.RemoveById | quiz-frontend/app/admin/page.tsx:40 | keeps exactly the quests whose id differs; none left carries the id |
| AdminPage.RemoveByIdKeepsOrder | quiz-frontend/app/admin/page.tsx:40 | the old list is an order-keeping merge of the kept quests and the quests carrying the id; their lengths add up |
| AdminPage.RemoveAbsentId | quiz-frontend/app/admin/page.tsx:40 | removing an id no quest carries leaves the list unchanged |
| AdminPage.BeginDelete | quiz-frontend/app/admin/page.tsx:36 | the pending state has deletingId set to the target and the list and loading flag unchanged |
| AdminPage.SettleDeleteAsWritten | quiz-frontend/app/admin/page.tsx:37-47 | deletingId cleared on both paths; on success the list is the captured snapshot filtered by id, in order (`RemoveById`), whatever the current list is; failure keeps the current list |
| AdminPage.SettleDelete | quiz-frontend/app/admin/page.tsx:37-47 | deletingId cleared on both paths; success leaves the current list filtered by id, in order (`RemoveById`); failure keeps the list |
| AdminPage.SettleAgreesWhenSequential | quiz-frontend/app/admin/page.tsx:33-47 | with one delete at a time, the as-written update and the corrected update agree |
| AdminPage.OverlappingDeletesAsWrittenRestoreQuest | quiz-frontend/app/admin/page.tsx:33-47 | as written, two overlapping deletes bring the first deleted quest back, and deletingId is cleared while the second is pending |
| AdminPage.OverlappingDeletesRemoveBoth | quiz-frontend/app/admin/page.tsx:40 | updating from the current list, two deletes remove both quests, in either settling order |
| AdminPage.DeleteAlert | quiz-frontend/app/admin/page.tsx:41-44 | success notice; on failure the Error's message, or the generic text for any other thrown value |
| AdminPage.HandleDelete | quiz-frontend/app/admin/page.tsx:33-48 | declined iff not confirmed; pending has the target id and the old list; settled has no deletingId, on success the old list filtered by id in order, on failure the old list, and the matching notice; loading untouched throughout |
| AdminPage.DeleteButtonDisabled | quiz-frontend/app/admin/page.tsx:173 | a row's delete button is disabled iff a delete of that row's id is pending |
| AdminPage.DeleteButtonsDuringRun | quiz-frontend/app/admin/page.tsx:173-184 | while pending, a button is disabled iff its quest has the target id; afterwards none is |
| AdminPage.DeleteEffectOnList | quiz-frontend/app/admin/page.tsx:33-48 | after a confirmed successful delete, no quest has the id; declined or failed leaves the list as it was |
| AdminPage.AdminDescription | quiz-frontend/app/admin/page.tsx:130-132 | up to 50 characters unchanged; longer ones become their first 50 characters plus "..." |
| AdminPage.StatusLabel | quiz-frontend/app/admin/page.tsx:139-144 | "Активен" iff the quest is open, "Завершён" iff it is not |

## Findings

| source | as written | input that shows it | evidently intended | confidence | as-written member | corrected member |
|---|---|---|---|---|---|---|
| quiz-frontend/app/admin/page.tsx:40 | on success the list is set to the captured `quests` filtered by id, not to the current list | list [1, 2]; delete 1, then delete 2 before 1 settles; 1 settles, then 2 | both quests gone (update from the current list) | not executed; follows from React closure semantics | AdminPage.OverlappingDeletesAsWrittenRestoreQuest | AdminPage.OverlappingDeletesRemoveBoth |

`AdminPage.HandleDelete` uses the corrected `AdminPage.SettleDelete`. With one delete
at a time the two versions agree (`AdminPage.SettleAgreesWhenSequential`). The single
`deletingId` slot is kept as written.

## Left out

- Transport in quiz-frontend/lib/api.ts (fetch, HTTP status, JSON) is not modelled. The
  fetch results are parameters: a loaded list or a failure, and a delete outcome. The only
  logic there, empty content with default settings on a 404, is transcribed as the constant
  `QuestTypes.NotFoundContent`.
- Date parsing and the clock are left out. `new Date(text)` is represented by the
  `Instant` it yields, `new Date()` by the `now` argument, and timezones are out of scope.
- Form wiring in quiz-frontend/app/admin/create/page.tsx and the static links in
  quiz-frontend/app/page.tsx are not modelled.
- React hooks, routing, `alert`, `confirm`, JSX markup and inline styles are not modelled.
  The confirmation answer is a boolean argument, and the notice is a returned string.
- The "created" column uses `formatDateTime` from lib/date, and lib/date is not part of
  this model.
- Question editing, scoring and timed play are in files outside this model's core.
- `points`, `order`, `attempts_allowed` and `time_limit_minutes` are JavaScript numbers.
  They are modelled as integers (`time_limit_minutes` as an optional integer), without
  floating point.
- Every `isQuestActive` call reads the clock afresh, once per quest in each of the two list
  filters and three times per admin table row. The model evaluates every call of one render
  at the same instant `now`. A quest whose bound falls between two readings could, in the
  program, appear under both headings or under neither, or get a badge colour that
  disagrees with its label; the partition lemmas do not cover that.
- QuestsPage.DecodePlayRoute: inverts the link string only; it does not model the
  router, which takes the id from one path segment and the mode from the query string.
  The id is put into the path unescaped, so an id holding '/', '?', '#' or '%' does not
  reach the play page unchanged; the round-trip lemma is about the string alone.
- Descriptions.Truncate: counts Dafny characters (Unicode scalar values), while JavaScript's
  `length` and `slice` count UTF-16 code units. The two differ on text outside the Basic
  Multilingual Plane: 60 emoji are 120 units long in JavaScript and are cut at 100 units
  (possibly inside a surrogate pair), while the model leaves them unchanged. The same gap
  applies to QuestsPage.CardDescription and AdminPage.AdminDescription, which are built on it.
