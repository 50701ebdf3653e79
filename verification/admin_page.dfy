/** The admin quest table: deleting a quest, the shortened description and the status badge. */
module AdminPage {
  import opened Options
  import opened Sequences
  import opened QuestTypes
  import opened Quests
  import Descriptions

  /** The page's state: `quests`, `loading`, `deletingId`. */
  datatype AdminState = AdminState(quests: seq<Quest>, loading: bool, deletingId: Option<string>)

  /** What `deleteQuest` rejected with: an `Error` carrying a message, or some other value. */
  datatype Thrown = ErrorObject(message: string) | OtherThrown

  /** How the awaited `deleteQuest(id)` settled. */
  datatype DeleteOutcome = Deleted | Rejected(thrown: Thrown)

  /** `quests.filter(q => q.id !== id)`. */
  function RemoveById(quests: seq<Quest>, id: string): (rest: seq<Quest>)
    ensures forall q :: q in rest <==> q in quests && q.id != id
    ensures forall i :: 0 <= i < |rest| ==> rest[i].id != id
  {
    Filter(Not(WithId(id)), quests)
  }

  /** Removal keeps every other quest, in order: the old list is a merge of what remains and
      of the quests carrying the id. */
  lemma RemoveByIdKeepsOrder(quests: seq<Quest>, id: string)
    ensures Interleaving(quests, RemoveById(quests, id), Filter(WithId(id), quests))
    ensures |RemoveById(quests, id)| + |Filter(WithId(id), quests)| == |quests|
  {
    FilterInterleaves(WithId(id), quests);
    InterleavingSwap(quests, Filter(WithId(id), quests), RemoveById(quests, id));
    InterleavingCounts(quests, RemoveById(quests, id), Filter(WithId(id), quests));
  }

  /** Removing an id no quest carries leaves the list as it was. */
  lemma RemoveAbsentId(quests: seq<Quest>, id: string)
    requires forall i :: 0 <= i < |quests| ==> quests[i].id != id
    ensures RemoveById(quests, id) == quests
  {
    FilterAllPass(Not(WithId(id)), quests);
  }

  /** The state after the user has confirmed: `setDeletingId(id)`. */
  function BeginDelete(s: AdminState, id: string): (pending: AdminState)
    ensures pending.quests == s.quests && pending.loading == s.loading
    ensures pending.deletingId == Some(id)
  {
    s.(deletingId := Some(id))
  }

  /** The settling of `handleDelete` as written: on success the list becomes `snapshot`
      without the quest, where `snapshot` is the list the handler's closure captured when
      it was invoked, not the current one; `deletingId` is cleared on both paths. */
  function SettleDeleteAsWritten(snapshot: seq<Quest>, s: AdminState, id: string, outcome: DeleteOutcome): (settled: AdminState)
    ensures settled.deletingId.None? && settled.loading == s.loading
    ensures outcome.Deleted? ==> settled.quests == RemoveById(snapshot, id)
    ensures outcome.Deleted? ==> forall q :: q in settled.quests <==> q in snapshot && q.id != id
    ensures outcome.Rejected? ==> settled.quests == s.quests
  {
    s.(quests := if outcome.Deleted? then RemoveById(snapshot, id) else s.quests, deletingId := None)
  }

  /** The settling with the list updated from its current value. */
  function SettleDelete(s: AdminState, id: string, outcome: DeleteOutcome): (settled: AdminState)
    ensures settled.deletingId.None?
    ensures settled.loading == s.loading
    ensures outcome.Deleted? ==> settled.quests == RemoveById(s.quests, id)
    ensures outcome.Deleted? ==> forall q :: q in settled.quests <==> q in s.quests && q.id != id
    ensures outcome.Rejected? ==> settled.quests == s.quests
  {
    s.(quests := if outcome.Deleted? then RemoveById(s.quests, id) else s.quests, deletingId := None)
  }

  /** With one delete at a time the captured list is the current one, and the two agree. */
  lemma SettleAgreesWhenSequential(s: AdminState, id: string, outcome: DeleteOutcome)
    ensures SettleDeleteAsWritten(s.quests, s, id, outcome) == SettleDelete(s, id, outcome)
  {
  }

  /** Two overlapping deletes as written: both handlers captured the list [a, b]; when "1"
      settles first and "2" second, quest "1" is back in the table, and `deletingId` was
      already cleared while "2" was still pending. */
  lemma OverlappingDeletesAsWrittenRestoreQuest()
    ensures
      var a := Quest("1", "A", "", At(0), At(1), None, None);
      var b := Quest("2", "B", "", At(0), At(1), None, None);
      var s0 := AdminState([a, b], false, None);
      var s2 := BeginDelete(BeginDelete(s0, "1"), "2");
      var s3 := SettleDeleteAsWritten(s0.quests, s2, "1", Deleted);
      var s4 := SettleDeleteAsWritten(s0.quests, s3, "2", Deleted);
      s3.deletingId.None? && s4.quests == [a]
  {
    var a := Quest("1", "A", "", At(0), At(1), None, None);
    var b := Quest("2", "B", "", At(0), At(1), None, None);
    assert RemoveById([a, b], "2") == [a] by {
      FilterCons(Not(WithId("2")), a, [b]);
      FilterCons(Not(WithId("2")), b, []);
    }
  }

  /** Settling from the current list, overlapping deletes remove both quests, in whichever
      order they settle. */
  lemma OverlappingDeletesRemoveBoth(s: AdminState, id1: string, id2: string)
    ensures var both := SettleDelete(SettleDelete(s, id1, Deleted), id2, Deleted);
      && both == SettleDelete(SettleDelete(s, id2, Deleted), id1, Deleted)
      && forall q :: q in both.quests <==> q in s.quests && q.id != id1 && q.id != id2
  {
    FilterCommutes(Not(WithId(id2)), Not(WithId(id1)), s.quests);
  }

  /** The notice shown once the delete has settled. */
  function DeleteAlert(outcome: DeleteOutcome): (message: string)
    ensures outcome.Deleted? ==> message == "Квест удалён"
    ensures outcome.Rejected? && outcome.thrown.ErrorObject? ==> message == outcome.thrown.message
    ensures outcome.Rejected? && outcome.thrown.OtherThrown? ==> message == "Ошибка удаления"
  {
    match outcome
    case Deleted => "Квест удалён"
    case Rejected(ErrorObject(m)) => m
    case Rejected(OtherThrown) => "Ошибка удаления"
  }

  /** One run of `handleDelete`: declined at the confirmation, or the pending state, the
      settled state and the notice. */
  datatype DeleteRun = Declined | Ran(pending: AdminState, settled: AdminState, alert: string)

  function HandleDelete(s: AdminState, id: string, confirmed: bool, outcome: DeleteOutcome): (run: DeleteRun)
    ensures run.Declined? <==> !confirmed
    ensures run.Ran? ==> run.pending.quests == s.quests && run.pending.deletingId == Some(id)
    ensures run.Ran? ==> run.settled.deletingId.None? && run.alert == DeleteAlert(outcome)
    ensures run.Ran? ==> run.pending.loading == s.loading && run.settled.loading == s.loading
    ensures run.Ran? && outcome.Deleted? ==> run.settled.quests == RemoveById(s.quests, id)
    ensures run.Ran? && outcome.Deleted? ==>
      forall q :: q in run.settled.quests <==> q in s.quests && q.id != id
    ensures run.Ran? && outcome.Rejected? ==> run.settled.quests == s.quests
  {
    if !confirmed then Declined
    else
      var pending := BeginDelete(s, id);
      Ran(pending, SettleDelete(pending, id, outcome), DeleteAlert(outcome))
  }

  /** The state the page is left in. */
  function AfterDelete(s: AdminState, run: DeleteRun): AdminState
  {
    match run
    case Declined => s
    case Ran(_, settled, _) => settled
  }

  /** `disabled={deletingId === quest.id}`, which also switches the label to "Удаление...". */
  function DeleteButtonDisabled(s: AdminState, q: Quest): (disabled: bool)
    ensures disabled ==> s.deletingId.Some? && s.deletingId.value == q.id
    ensures s.deletingId.Some? && s.deletingId.value == q.id ==> disabled
  {
    s.deletingId == Some(q.id)
  }

  /** While the delete is pending exactly the buttons of quests with that id are disabled;
      once it settles, or when it was declined, none is disabled that was not before. */
  lemma DeleteButtonsDuringRun(s: AdminState, id: string, confirmed: bool, outcome: DeleteOutcome)
    requires s.deletingId.None?
    ensures var run := HandleDelete(s, id, confirmed, outcome);
      && (run.Ran? ==> forall q :: DeleteButtonDisabled(run.pending, q) <==> q.id == id)
      && forall q :: !DeleteButtonDisabled(AfterDelete(s, run), q)
  {
  }

  /** A successful delete leaves no quest with the id; a declined or failed one leaves the
      list as it was. */
  lemma DeleteEffectOnList(s: AdminState, id: string, confirmed: bool, outcome: DeleteOutcome)
    ensures var after := AfterDelete(s, HandleDelete(s, id, confirmed, outcome));
      if confirmed && outcome.Deleted? then
        after.quests == RemoveById(s.quests, id)
        && forall i :: 0 <= i < |after.quests| ==> after.quests[i].id != id
      else after.quests == s.quests
  {
  }

  /** The description in the table: at most 50 characters of it. */
  function AdminDescription(description: string): (shown: string)
    ensures |description| <= 50 ==> shown == description
    ensures |description| > 50 ==> shown == description[..50] + Descriptions.Ellipsis
    ensures |shown| <= 53
  {
    Descriptions.Truncate(description, 50)
  }

  /** The status badge. */
  function StatusLabel(now: int, q: Quest): (badge: string)
    ensures badge == "Активен" <==> IsActive(now, q)
    ensures badge == "Завершён" <==> !IsActive(now, q)
  {
    if IsActive(now, q) then "Активен" else "Завершён"
  }
}
