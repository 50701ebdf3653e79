/** Whether a quest is open: `now >= from && now <= to` on JavaScript dates, with the clock
    reading passed in as `now` (milliseconds since the epoch). */
module Quests {
  import opened QuestTypes

  /** `now >= t` on dates: compares millisecond values; an Invalid Date is NaN and every
      comparison with NaN is false. */
  function NotBefore(now: int, t: Instant): bool
  {
    match t
    case At(ms) => now >= ms
    case InvalidDate => false
  }

  /** `now <= t` on dates, with the same NaN rule. */
  function NotAfter(now: int, t: Instant): bool
  {
    match t
    case At(ms) => now <= ms
    case InvalidDate => false
  }

  /** The quest is open at `now`: both bounds are valid dates and `now` lies between them,
      both ends included. */
  function IsActive(now: int, q: Quest): (active: bool)
    ensures active <==>
      q.activeFrom.At? && q.activeTo.At? && q.activeFrom.ms <= now <= q.activeTo.ms
  {
    NotBefore(now, q.activeFrom) && NotAfter(now, q.activeTo)
  }

  /** The `isQuestActive` callback as a value, for filtering. */
  function ActiveAt(now: int): (active: Quest -> bool)
    ensures forall q :: active(q) == IsActive(now, q)
  {
    (q: Quest) => IsActive(now, q)
  }

  /** Both bounds of a well-formed window are inside it; one millisecond beyond either is not. */
  lemma ActiveAtBounds(q: Quest)
    requires q.activeFrom.At? && q.activeTo.At?
    requires q.activeFrom.ms <= q.activeTo.ms
    ensures IsActive(q.activeFrom.ms, q)
    ensures IsActive(q.activeTo.ms, q)
    ensures !IsActive(q.activeFrom.ms - 1, q)
    ensures !IsActive(q.activeTo.ms + 1, q)
  {
  }

  /** A window that ends before it starts is never open. */
  lemma MalformedWindowNeverActive(q: Quest, now: int)
    requires q.activeFrom.At? && q.activeTo.At?
    requires q.activeFrom.ms > q.activeTo.ms
    ensures !IsActive(now, q)
  {
  }

  /** A bound that did not parse closes the window for good. */
  lemma InvalidBoundNeverActive(q: Quest, now: int)
    requires q.activeFrom.InvalidDate? || q.activeTo.InvalidDate?
    ensures !IsActive(now, q)
  {
  }

  /** The instants at which a quest is open form an interval. */
  lemma ActiveTimesAreConvex(q: Quest, early: int, now: int, late: int)
    requires early <= now <= late
    requires IsActive(early, q) && IsActive(late, q)
    ensures IsActive(now, q)
  {
  }

  /** Only the window matters: title, description, id and audit fields play no part. */
  lemma ActivityDependsOnlyOnWindow(q1: Quest, q2: Quest, now: int)
    requires q1.activeFrom == q2.activeFrom && q1.activeTo == q2.activeTo
    ensures IsActive(now, q1) == IsActive(now, q2)
  {
  }
}
