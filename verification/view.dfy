/** The pages' reading of a pause status fetched from the server. The customer
    page and the admin page judge "paused" the same way: the status must say
    paused, and the clock must not have reached the pause's end. */
module PauseView {
  import opened Wrappers
  import opened Schema
  import opened Storage
  import opened PauseControl

  /** The milliseconds from `now` to the end of a reported pause. */
  function LeftMillis(pausedAt: Millis, minutes: int, now: Millis): int
  {
    Deadline(pausedAt, minutes) - now
  }

  /** Whether a page treats the channel as paused; `None` is a status not
      (yet) fetched. */
  function IsServicePaused(status: Option<PauseStatus>, now: Millis): (r: bool)
    ensures r ==> status.Some? && status.value.Paused?
    ensures status.Some? && status.value.Paused? ==>
      (r <==> 0 < LeftMillis(status.value.pausedAt, status.value.pauseDurationMinutes, now))
  {
    match status
    case Some(Paused(pausedAt, minutes, _, _)) => now < Deadline(pausedAt, minutes)
    case _ => false
  }

  /** A status fetched at `fetched` and read by a page at `later` agrees with
      what the server's check would answer at `later`, when nothing but the
      fetch itself has written the pause record in between. */
  lemma ViewAgreesWithServer(s: Store, serviceType: string, fetched: Millis, later: Millis)
    requires Valid(s)
    ensures var check := CheckPaused(s, serviceType, fetched);
      IsServicePaused(Some(check.value), later) <==> CheckPaused(check.store, serviceType, later).value.Paused?
  {
    var check := CheckPaused(s, serviceType, fetched);
    if check.value.NotPaused? {
      NotPausedIsFinal(s, serviceType, fetched, later);
    }
  }

  /** Read at the moment it was fetched, a status says paused exactly when
      the server's check did. */
  lemma ViewAtFetch(s: Store, serviceType: string, now: Millis)
    ensures IsServicePaused(Some(CheckPaused(s, serviceType, now).value), now) <==> CheckPaused(s, serviceType, now).value.Paused?
  {
  }
}
