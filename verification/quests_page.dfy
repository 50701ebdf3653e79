/** The player's quest page: the list split into open and past quests, the card text,
    the selection of one quest by the `id` query parameter, and the play link. */
module QuestsPage {
  import opened Options
  import opened Sequences
  import opened QuestTypes
  import opened Quests
  import Descriptions

  // ---------------------------------------------------------------- the list

  /** `quests.filter(isQuestActive)`. */
  function ActiveQuests(now: int, quests: seq<Quest>): (active: seq<Quest>)
    ensures forall q :: q in active <==> q in quests && IsActive(now, q)
    ensures forall i :: 0 <= i < |active| ==> IsActive(now, active[i])
  {
    Filter(ActiveAt(now), quests)
  }

  /** `quests.filter(q => !isQuestActive(q))`. */
  function PastQuests(now: int, quests: seq<Quest>): (past: seq<Quest>)
    ensures forall q :: q in past <==> q in quests && !IsActive(now, q)
    ensures forall i :: 0 <= i < |past| ==> !IsActive(now, past[i])
  {
    Filter(Not(ActiveAt(now)), quests)
  }

  /** The two headings together account for every quest once: the list is a merge of the
      open and the past quests, each in its original order, and no quest is under both. */
  lemma QuestListPartition(now: int, quests: seq<Quest>)
    ensures Interleaving(quests, ActiveQuests(now, quests), PastQuests(now, quests))
    ensures |ActiveQuests(now, quests)| + |PastQuests(now, quests)| == |quests|
    ensures multiset(ActiveQuests(now, quests)) + multiset(PastQuests(now, quests)) == multiset(quests)
    ensures forall q :: q in ActiveQuests(now, quests) ==> q !in PastQuests(now, quests)
  {
    FilterInterleaves(ActiveAt(now), quests);
    InterleavingCounts(quests, ActiveQuests(now, quests), PastQuests(now, quests));
  }

  /** Conversely, any order-keeping split of the list into open and not-open quests is the
      one the page shows. */
  lemma QuestListSplitUnique(now: int, quests: seq<Quest>, active: seq<Quest>, past: seq<Quest>)
    requires Interleaving(quests, active, past)
    requires forall i :: 0 <= i < |active| ==> IsActive(now, active[i])
    requires forall i :: 0 <= i < |past| ==> !IsActive(now, past[i])
    ensures active == ActiveQuests(now, quests)
    ensures past == PastQuests(now, quests)
  {
    InterleavingUnique(ActiveAt(now), quests, active, past);
  }

  /** The description on a quest card: at most 100 characters of it. */
  function CardDescription(description: string): (shown: string)
    ensures |description| <= 100 ==> shown == description
    ensures |description| > 100 ==> shown == description[..100] + Descriptions.Ellipsis
    ensures |shown| <= 103
  {
    Descriptions.Truncate(description, 100)
  }

  // ----------------------------------------------------------- the selection

  /** `if (!questId)`: the parameter is missing or the empty string. */
  function HasQueryId(questId: Option<string>): (given: bool)
    ensures given ==> questId.Some? && |questId.value| > 0
    ensures questId.Some? && |questId.value| > 0 ==> given
  {
    questId.Some? && questId.value != ""
  }

  /** `quests.find(q => q.id === id)`: the first quest carrying the id, if any. */
  function FindById(quests: seq<Quest>, id: string): (found: Option<Quest>)
    ensures found.None? <==> forall i :: 0 <= i < |quests| ==> quests[i].id != id
    ensures found.Some? ==>
      exists i :: (0 <= i < |quests| && quests[i] == found.value && quests[i].id == id
                   && forall j :: 0 <= j < i ==> quests[j].id != id)
  {
    var at := FindFirst(WithId(id), quests);
    if at.None? then None
    else
      var q := quests[at.value];
      assert WithId(id)(q);
      Some(q)
  }

  /** The effect on `[questId, quests]`: no id clears the selection; with an id and a loaded
      list it selects the first match or nothing; with an id and an empty list the previous
      selection stays. */
  function SelectQuest(questId: Option<string>, quests: seq<Quest>, previous: Option<Quest>): (selected: Option<Quest>)
    ensures !HasQueryId(questId) ==> selected.None?
    ensures HasQueryId(questId) && |quests| == 0 ==> selected == previous
    ensures HasQueryId(questId) && |quests| > 0 ==>
      (selected.None? <==> forall q :: q in quests ==> q.id != questId.value)
    ensures HasQueryId(questId) && |quests| > 0 && selected.Some? ==>
      selected.value in quests && selected.value.id == questId.value
    ensures HasQueryId(questId) && |quests| > 0 ==> selected == FindById(quests, questId.value)
  {
    if !HasQueryId(questId) then None
    else if |quests| > 0 then FindById(quests, questId.value)
    else previous
  }

  /** Re-running the effect with unchanged inputs changes nothing, so React skipping the
      re-run when neither dependency changed is harmless. */
  lemma SelectQuestIdempotent(questId: Option<string>, quests: seq<Quest>, previous: Option<Quest>)
    ensures SelectQuest(questId, quests, SelectQuest(questId, quests, previous))
         == SelectQuest(questId, quests, previous)
  {
  }

  /** The page's state: `quests`, `selectedQuest`, `loading`. */
  datatype PageState = PageState(quests: seq<Quest>, selected: Option<Quest>, loading: bool)

  /** The first render: empty list, nothing selected, loading. */
  const InitialPage: PageState := PageState([], None, true)

  function RunSelectionEffect(questId: Option<string>, st: PageState): PageState
  {
    st.(selected := SelectQuest(questId, st.quests, st.selected))
  }

  /** `loadQuests` settling: `data` is the fetched list, or None when the fetch threw and
      the list stays as it was; either way loading ends. */
  function FinishLoading(st: PageState, data: Option<seq<Quest>>): (loaded: PageState)
    ensures !loaded.loading && loaded.selected == st.selected
    ensures data.Some? ==> loaded.quests == data.value
    ensures data.None? ==> loaded.quests == st.quests
  {
    st.(quests := if data.Some? then data.value else st.quests, loading := false)
  }

  /** The three views the page renders. */
  datatype Screen =
    | NotFoundScreen
    | DetailScreen(quest: Quest)
    | ListScreen(loading: bool, active: seq<Quest>, past: seq<Quest>)

  function Render(now: int, questId: Option<string>, st: PageState): (screen: Screen)
    ensures screen == NotFoundScreen <==> HasQueryId(questId) && !st.loading && st.selected.None?
    ensures screen.DetailScreen? ==> st.selected == Some(screen.quest)
    ensures st.selected.Some? ==> screen == DetailScreen(st.selected.value)
    ensures screen.ListScreen? ==> screen.loading == st.loading && st.selected.None?
    ensures screen.ListScreen? ==>
      (screen.active == ActiveQuests(now, st.quests) && screen.past == PastQuests(now, st.quests))
  {
    if HasQueryId(questId) && !st.loading && st.selected.None? then NotFoundScreen
    else if st.selected.Some? then DetailScreen(st.selected.value)
    else ListScreen(st.loading, ActiveQuests(now, st.quests), PastQuests(now, st.quests))
  }

  /** The list the page holds once loading has settled. */
  function LoadedList(data: Option<seq<Quest>>): seq<Quest>
  {
    if data.Some? then data.value else []
  }

  /** Once loading has settled and the selection effect has run, an id shows the first quest
      with that id, or "not found" when the loaded list (empty after a failed fetch) has none;
      no id shows the split list. */
  lemma PageAfterLoad(now: int, questId: Option<string>, data: Option<seq<Quest>>)
    ensures var st := RunSelectionEffect(questId, FinishLoading(RunSelectionEffect(questId, InitialPage), data));
      Render(now, questId, st) ==
        if !HasQueryId(questId) then
          ListScreen(false, ActiveQuests(now, LoadedList(data)), PastQuests(now, LoadedList(data)))
        else match FindById(LoadedList(data), questId.value)
          case Some(q) => DetailScreen(q)
          case None => NotFoundScreen
  {
  }

  /** The render committed when loading settles comes before the selection effect, so with
      an id it is the "not found" view even when the list holds the quest. */
  lemma LoadCommitPrecedesSelection(now: int, questId: Option<string>, data: Option<seq<Quest>>)
    requires HasQueryId(questId)
    ensures Render(now, questId, FinishLoading(RunSelectionEffect(questId, InitialPage), data)) == NotFoundScreen
  {
  }

  // ---------------------------------------------------------------- playing

  datatype PlayMode = Scored | Practice

  /** `handlePlay`: inside the window the attempt counts, outside it is practice. */
  function PlayModeOf(now: int, q: Quest): (mode: PlayMode)
    ensures mode == Scored <==> IsActive(now, q)
    ensures mode == Practice <==> !IsActive(now, q)
  {
    if IsActive(now, q) then Scored else Practice
  }

  const RoutePrefix: string := "/quests/"
  const ScoredSuffix: string := "/play"
  const PracticeSuffix: string := "/play?mode=practice"

  /** The path `handlePlay` navigates to. */
  function PlayRoute(now: int, q: Quest): (path: string)
    ensures |path| > |RoutePrefix| + |q.id| && path[..|RoutePrefix| + |q.id|] == RoutePrefix + q.id
    ensures IsActive(now, q) ==> path[|RoutePrefix| + |q.id|..] == ScoredSuffix
    ensures !IsActive(now, q) ==> path[|RoutePrefix| + |q.id|..] == PracticeSuffix
  {
    RoutePrefix + q.id + (if PlayModeOf(now, q) == Scored then ScoredSuffix else PracticeSuffix)
  }

  datatype PlayTarget = PlayTarget(questId: string, mode: PlayMode)

  /** Recovers the quest id and the mode from a link of the shape `PlayRoute` builds:
      the text between the route prefix and the suffix, practice when the suffix carries
      `?mode=practice`. */
  function DecodePlayRoute(path: string): (target: Option<PlayTarget>)
    ensures target.Some? ==> |path| >= |RoutePrefix| && path[..|RoutePrefix|] == RoutePrefix
  {
    if |path| >= |RoutePrefix| + |PracticeSuffix| && path[..|RoutePrefix|] == RoutePrefix
       && path[|path| - |PracticeSuffix|..] == PracticeSuffix
    then Some(PlayTarget(path[|RoutePrefix|..|path| - |PracticeSuffix|], Practice))
    else if |path| >= |RoutePrefix| + |ScoredSuffix| && path[..|RoutePrefix|] == RoutePrefix
       && path[|path| - |ScoredSuffix|..] == ScoredSuffix
    then Some(PlayTarget(path[|RoutePrefix|..|path| - |ScoredSuffix|], Scored))
    else None
  }

  /** The play link carries the quest's id and the mode its window dictates, and nothing
      else: reading it back gives both. */
  lemma PlayRouteRoundTrip(now: int, q: Quest)
    ensures DecodePlayRoute(PlayRoute(now, q)) == Some(PlayTarget(q.id, PlayModeOf(now, q)))
  {
    var path := PlayRoute(now, q);
    var n := |RoutePrefix| + |q.id|;
    assert path[..|RoutePrefix|] == RoutePrefix;
    if PlayModeOf(now, q) == Scored {
      assert path[n..] == ScoredSuffix;
      assert path[|path| - |ScoredSuffix|..] == ScoredSuffix;
      assert path[|path| - 1] == 'y';
      if |path| >= |RoutePrefix| + |PracticeSuffix| {
        assert path[|path| - |PracticeSuffix|..][|PracticeSuffix| - 1] == 'y';
        assert PracticeSuffix[|PracticeSuffix| - 1] == 'e';
      }
      assert path[|RoutePrefix|..|path| - |ScoredSuffix|] == q.id;
    } else {
      assert path[n..] == PracticeSuffix;
      assert path[|path| - |PracticeSuffix|..] == PracticeSuffix;
      assert path[|RoutePrefix|..|path| - |PracticeSuffix|] == q.id;
    }
  }

  /** Two play links are equal only for the same quest id in the same mode. */
  lemma PlayRouteInjective(now1: int, q1: Quest, now2: int, q2: Quest)
    requires PlayRoute(now1, q1) == PlayRoute(now2, q2)
    ensures q1.id == q2.id
    ensures IsActive(now1, q1) == IsActive(now2, q2)
  {
    PlayRouteRoundTrip(now1, q1);
    PlayRouteRoundTrip(now2, q2);
  }
}
