/** The admin page's pause management: the duration input, the toggle that
    asks the server for the opposite of the displayed state, and the
    remaining-time label. */
module AdminPause {
  import opened Wrappers
  import opened Schema
  import opened Storage
  import opened PauseControl
  import opened Routes
  import opened PauseView
  import CustomerOrder
  import Text

  /** The duration field: the parsed number, or 30 when parsing fails (`None`)
      or yields 0. */
  function DurationFromInput(parsed: Option<int>): (r: int)
    ensures r != 0
    ensures TruthyNumber(parsed) ==> r == parsed.value
    ensures !TruthyNumber(parsed) ==> r == DefaultPauseMinutes
  {
    OrNumber(parsed, DefaultPauseMinutes)
  }

  /** The body the toggle posts to `/api/order-pause`. */
  datatype PauseRequest = PauseRequest(serviceType: string, isPaused: bool, pauseDurationMinutes: int, pauseReason: string)

  /** `handleTogglePause`: asks for the opposite of the state passed in, with
      the form's duration and message. */
  function HandleTogglePause(serviceType: string, currentlyPaused: bool, minutes: int, reason: string): (r: PauseRequest)
    ensures r.isPaused != currentlyPaused
    ensures r.serviceType == serviceType && r.pauseDurationMinutes == minutes && r.pauseReason == reason
  {
    PauseRequest(serviceType, !currentlyPaused, minutes, reason)
  }

  /** The channel's button: it passes the page's own reading of the status. */
  function ToggleButton(serviceType: string, status: Option<PauseStatus>, now: Millis, minutes: int, reason: string): PauseRequest
  {
    HandleTogglePause(serviceType, IsServicePaused(status, now), minutes, reason)
  }

  /** The server's handling of the toggle's request. */
  function SendPause(s: Store, req: PauseRequest, now: Millis): Reply
  {
    PostPause(s, req.serviceType, req.isPaused, Some(req.pauseDurationMinutes), Some(req.pauseReason), now)
  }

  /** The toggle flips the channel: after the request, the server's check at
      the same instant reports paused exactly when the page showed it active
      (for a positive duration). */
  lemma ToggleFlips(s: Store, serviceType: string, fetched: Millis, now: Millis, minutes: int, reason: string)
    requires Valid(s) && minutes > 0
    ensures var check := CheckPaused(s, serviceType, fetched);
      var shown := IsServicePaused(Some(check.value), now);
      var after := SendPause(check.store, ToggleButton(serviceType, Some(check.value), now, minutes, reason), now).store;
      CheckPaused(after, serviceType, now).value.Paused? <==> !shown
  {
    var check := CheckPaused(s, serviceType, fetched);
    if !IsServicePaused(Some(check.value), now) {
      PauseThenCheck(check.store, serviceType, minutes, reason, now, now);
    }
  }

  /** The duration the form sends is never 0, so the server keeps it as sent
      instead of falling back to its own default. */
  lemma FormDurationKept(s: Store, serviceType: string, isPaused: bool, parsed: Option<int>, reason: string, now: Millis)
    ensures PostPause(s, serviceType, isPaused, Some(DurationFromInput(parsed)), Some(reason), now)
      .response.body.settings.pauseDurationMinutes == DurationFromInput(parsed)
  {
  }

  // ---------------------------------------------------------------------------
  // Remaining time

  datatype AdminCountdown = Expired | Left(minutes: int, seconds: int)

  /** `formatRemainingTime` of the admin page: "Expired" once the end has
      passed, otherwise the whole minutes and the whole seconds after them. */
  function AdminCountdownOf(pausedAt: Millis, minutes: int, now: Millis): (r: AdminCountdown)
    ensures r.Expired? <==> LeftMillis(pausedAt, minutes, now) <= 0
    ensures r.Left? ==>
      var left := LeftMillis(pausedAt, minutes, now);
      && r.minutes >= 0 && 0 <= r.seconds < 60
      && r.minutes * MillisPerMinute + r.seconds * MillisPerSecond <= left
      && left < r.minutes * MillisPerMinute + (r.seconds + 1) * MillisPerSecond
  {
    var left := LeftMillis(pausedAt, minutes, now);
    if left <= 0 then Expired
    else
      CustomerOrder.MinuteSecondSplit(left);
      Left(left / MillisPerMinute, (left % MillisPerMinute) / MillisPerSecond)
  }

  function AdminCountdownText(c: AdminCountdown): string
  {
    match c
    case Expired => "Expired"
    case Left(m, sec) => Text.IntToString(m) + "m " + Text.IntToString(sec) + "s remaining"
  }

  /** The page shows a time left exactly while it reads the channel as paused. */
  lemma AdminCountdownWhilePaused(status: PauseStatus, now: Millis)
    requires status.Paused?
    ensures IsServicePaused(Some(status), now) <==> AdminCountdownOf(status.pausedAt, status.pauseDurationMinutes, now).Left?
  {
  }

  /** The admin label and the customer label read the same clock the same
      way: the same whole minutes, and the same seconds under a minute. */
  lemma AdminAgreesWithCustomer(status: PauseStatus, now: Millis)
    requires status.Paused?
    ensures var a := AdminCountdownOf(status.pausedAt, status.pauseDurationMinutes, now);
      var c := CustomerOrder.CountdownOf(Some(status), now);
      && (a.Expired? <==> c.ResumingSoon?)
      && (c.MinutesLeft? ==> a.Left? && a.minutes == c.minutes)
      && (c.SecondsLeft? ==> a.Left? && a.minutes == 0 && a.seconds == c.seconds)
  {
    var left := LeftMillis(status.pausedAt, status.pauseDurationMinutes, now);
    if left > 0 {
      CustomerOrder.MinuteSecondSplit(left);
    }
  }
}
