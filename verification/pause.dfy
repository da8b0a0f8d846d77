/** Admission control: one pause record per service channel, the upsert that
    maintains it, and the read that reports whether a channel is paused and
    lazily clears a pause whose duration has run out. */
module PauseControl {
  import opened Wrappers
  import opened Schema
  import opened Storage

  /** What the pause check reports. A paused channel carries its record's
      start, duration and reason and the whole minutes still to run. */
  datatype PauseStatus =
    | NotPaused
    | Paused(pausedAt: Millis, pauseDurationMinutes: int, pauseReason: string, remainingTimeMinutes: int)

  /** The pause records in the store's iteration order (ascending id). */
  function PauseList(s: Store): seq<PauseSettings>
  {
    Ascending(s.pauseSettings, 1, s.nextPauseSettingsId)
  }

  lemma PauseListMembers(s: Store, v: PauseSettings)
    requires Valid(s)
    ensures v in PauseList(s) <==> v.id in s.pauseSettings && s.pauseSettings[v.id] == v
  {
    if v in PauseList(s) {
      AscendingFrom(s.pauseSettings, 1, s.nextPauseSettingsId, v);
    }
    if v.id in s.pauseSettings && s.pauseSettings[v.id] == v {
      AscendingHas(s.pauseSettings, 1, s.nextPauseSettingsId, v.id);
    }
  }

  /** The first record of the list that belongs to `serviceType`. */
  function FindService(l: seq<PauseSettings>, serviceType: string): (r: Option<PauseSettings>)
    ensures r.Some? ==> r.value in l && r.value.serviceType == serviceType
    ensures r.None? ==> forall i :: 0 <= i < |l| ==> l[i].serviceType != serviceType
  {
    if |l| == 0 then None
    else if l[0].serviceType == serviceType then Some(l[0])
    else FindService(l[1..], serviceType)
  }

  /** A channel has a record in the store. */
  ghost predicate HasRecord(s: Store, serviceType: string)
  {
    exists k :: k in s.pauseSettings && s.pauseSettings[k].serviceType == serviceType
  }

  /** The pause record of a channel: in a valid store, the one record stored
      for it, if any. */
  function GetPauseSettings(s: Store, serviceType: string): (r: Option<PauseSettings>)
    ensures Valid(s) ==> (r.Some? <==> HasRecord(s, serviceType))
    ensures Valid(s) && r.Some? ==>
      r.value.serviceType == serviceType && r.value.id in s.pauseSettings && s.pauseSettings[r.value.id] == r.value
  {
    var r := FindService(PauseList(s), serviceType);
    GetPauseSettingsLemma(s, serviceType, r);
    r
  }

  lemma GetPauseSettingsLemma(s: Store, serviceType: string, r: Option<PauseSettings>)
    requires r == FindService(PauseList(s), serviceType)
    ensures Valid(s) ==> (r.Some? <==> HasRecord(s, serviceType))
    ensures Valid(s) && r.Some? ==> r.value.id in s.pauseSettings && s.pauseSettings[r.value.id] == r.value
  {
    if Valid(s) && HasRecord(s, serviceType) {
      var k :| k in s.pauseSettings && s.pauseSettings[k].serviceType == serviceType;
      PauseListMembers(s, s.pauseSettings[k]);
    }
    if Valid(s) && r.Some? {
      PauseListMembers(s, r.value);
    }
  }

  /** In a valid store, a record stored for a channel is the one the lookup finds. */
  lemma GetPauseSettingsFinds(s: Store, v: PauseSettings)
    requires v.id in s.pauseSettings && s.pauseSettings[v.id] == v
    ensures Valid(s) ==> GetPauseSettings(s, v.serviceType) == Some(v)
  {
    assert HasRecord(s, v.serviceType);
  }

  /** The upsert: an existing record of the channel is overwritten field by
      field (keeping its id, its creation time and, when the input carries
      none, its `pausedAt`); otherwise a record is created under the next id. */
  function UpsertPauseSettings(s: Store, ins: InsertPauseSettings, now: Millis): (r: Step<PauseSettings>)
    ensures r.value.serviceType == ins.serviceType && r.value.isPaused == ins.isPaused
    ensures r.value.pauseDurationMinutes == ins.pauseDurationMinutes && r.value.pauseReason == ins.pauseReason
    ensures r.value.updatedAt == now
    ensures ins.pausedAt.Some? ==> r.value.pausedAt == ins.pausedAt
    ensures r.store.orders == s.orders && r.store.orderItems == s.orderItems
    ensures r.store.nextOrderId == s.nextOrderId && r.store.nextOrderItemId == s.nextOrderItemId
    ensures GetPauseSettings(s, ins.serviceType).Some? ==> r.store.nextPauseSettingsId == s.nextPauseSettingsId
    ensures Valid(s) ==> Valid(r.store) && GetPauseSettings(r.store, ins.serviceType) == Some(r.value)
    ensures Valid(s) ==> match GetPauseSettings(s, ins.serviceType)
      case Some(e) =>
        && r.value.id == e.id && r.value.createdAt == e.createdAt
        && (ins.pausedAt.None? ==> r.value.pausedAt == e.pausedAt)
        && r.store.nextPauseSettingsId == s.nextPauseSettingsId
        && r.store.pauseSettings.Keys == s.pauseSettings.Keys
      case None =>
        && r.value.id == s.nextPauseSettingsId && r.value.createdAt == now
        && r.value.pausedAt == ins.pausedAt
        && r.store.nextPauseSettingsId == s.nextPauseSettingsId + 1
        && r.store.pauseSettings.Keys == s.pauseSettings.Keys + {r.value.id}
  {
    match GetPauseSettings(s, ins.serviceType)
    case Some(e) =>
      var updated := e.(
        serviceType := ins.serviceType,
        isPaused := ins.isPaused,
        pauseDurationMinutes := ins.pauseDurationMinutes,
        pauseReason := ins.pauseReason,
        pausedAt := if ins.pausedAt.Some? then ins.pausedAt else e.pausedAt,
        updatedAt := now);
      var s' := s.(pauseSettings := s.pauseSettings[e.id := updated]);
      GetPauseSettingsFinds(s', updated);
      Step(s', updated)
    case None =>
      var created := PauseSettings(
        id := s.nextPauseSettingsId,
        serviceType := ins.serviceType,
        isPaused := ins.isPaused,
        pauseDurationMinutes := ins.pauseDurationMinutes,
        pausedAt := ins.pausedAt,
        pauseReason := ins.pauseReason,
        createdAt := now,
        updatedAt := now);
      var s' := s.(pauseSettings := s.pauseSettings[created.id := created],
                   nextPauseSettingsId := s.nextPauseSettingsId + 1);
      GetPauseSettingsFinds(s', created);
      Step(s', created)
  }

  /** An upsert for one channel leaves every other channel's record as it was. */
  lemma UpsertOthersUnchanged(s: Store, ins: InsertPauseSettings, now: Millis, other: string)
    requires Valid(s) && other != ins.serviceType
    ensures GetPauseSettings(UpsertPauseSettings(s, ins, now).store, other) == GetPauseSettings(s, other)
  {
    var r := UpsertPauseSettings(s, ins, now);
    var before, after := GetPauseSettings(s, other), GetPauseSettings(r.store, other);
    if after.Some? {
      assert after.value.id != r.value.id;
      GetPauseSettingsFinds(s, after.value);
    } else if before.Some? {
      GetPauseSettingsFinds(r.store, before.value);
    }
  }

  /** The same, for every other channel at once. */
  lemma UpsertOthersAll(s: Store, ins: InsertPauseSettings, now: Millis)
    ensures Valid(s) ==> forall t :: t != ins.serviceType ==>
      GetPauseSettings(UpsertPauseSettings(s, ins, now).store, t) == GetPauseSettings(s, t)
  {
    if Valid(s) {
      forall t | t != ins.serviceType
        ensures GetPauseSettings(UpsertPauseSettings(s, ins, now).store, t) == GetPauseSettings(s, t)
      {
        UpsertOthersUnchanged(s, ins, now, t);
      }
    }
  }

  /** Upserting the same input twice leaves one record with that input. */
  lemma UpsertTwiceOneRecord(s: Store, ins: InsertPauseSettings, now: Millis)
    requires Valid(s)
    ensures var first := UpsertPauseSettings(s, ins, now);
      var second := UpsertPauseSettings(first.store, ins, now);
      && second.value == first.value
      && second.store.pauseSettings == first.store.pauseSettings
  {
  }

  /** `Math.floor(e / 60000) < n` exactly when `e < n * 60000`. */
  lemma FloorMinutesBelow(e: int, n: int)
    ensures e / MillisPerMinute < n <==> e < n * MillisPerMinute
  {
    var q := e / MillisPerMinute;
    assert q * MillisPerMinute <= e < q * MillisPerMinute + MillisPerMinute;
  }

  /** `n - Math.floor(e / 60000)` counts the started minutes before `n * 60000`:
      one minute fewer falls short of the gap, that many covers it. */
  lemma StartedMinutes(e: int, n: int)
    ensures (n - e / MillisPerMinute - 1) * MillisPerMinute < n * MillisPerMinute - e
    ensures n * MillisPerMinute - e <= (n - e / MillisPerMinute) * MillisPerMinute
  {
    var q := e / MillisPerMinute;
    assert q * MillisPerMinute <= e < q * MillisPerMinute + MillisPerMinute;
  }

  /** The instant a pause that started at `pausedAt` for `minutes` minutes runs out. */
  function Deadline(pausedAt: Millis, minutes: int): Millis
  {
    pausedAt + minutes * MillisPerMinute
  }

  /** A record that claims a pause: flagged paused and with a start time. */
  predicate Armed(v: PauseSettings)
  {
    v.isPaused && v.pausedAt.Some?
  }

  /** The pause check. No record, a record not flagged paused, or one without
      a start time: not paused. Otherwise the remaining whole minutes are the
      duration less the elapsed whole minutes, floored at 0; at 0 the record
      is rewritten as not paused (keeping `pausedAt`) and the answer is not
      paused. */
  function CheckPaused(s: Store, serviceType: string, now: Millis): (r: Step<PauseStatus>)
    ensures var rec := GetPauseSettings(s, serviceType);
      r.value.Paused? <==>
        (rec.Some? && Armed(rec.value) && now < Deadline(rec.value.pausedAt.value, rec.value.pauseDurationMinutes))
    ensures r.value.Paused? ==>
      var rec := GetPauseSettings(s, serviceType).value;
      var left := Deadline(r.value.pausedAt, r.value.pauseDurationMinutes) - now;
      && r.store == s
      && r.value.pausedAt == rec.pausedAt.value
      && r.value.pauseDurationMinutes == rec.pauseDurationMinutes
      && r.value.pauseReason == rec.pauseReason
      && 0 < r.value.remainingTimeMinutes
      && (r.value.remainingTimeMinutes - 1) * MillisPerMinute < left <= r.value.remainingTimeMinutes * MillisPerMinute
    ensures var rec := GetPauseSettings(s, serviceType);
      r.value.NotPaused? && rec.Some? && Armed(rec.value) ==>
        Valid(s) ==>
        && GetPauseSettings(r.store, serviceType) == Some(rec.value.(isPaused := false, updatedAt := now))
        && r.store.orders == s.orders && r.store.orderItems == s.orderItems
    ensures var rec := GetPauseSettings(s, serviceType);
      !(rec.Some? && Armed(rec.value)) ==> r == Step(s, NotPaused)
    ensures r.store.orders == s.orders && r.store.orderItems == s.orderItems
    ensures r.store.nextOrderId == s.nextOrderId && r.store.nextOrderItemId == s.nextOrderItemId
    ensures r.store.nextPauseSettingsId == s.nextPauseSettingsId
    ensures Valid(s) ==> forall t :: t != serviceType ==> GetPauseSettings(r.store, t) == GetPauseSettings(s, t)
    ensures Valid(s) ==> Valid(r.store)
  {
    var rec := GetPauseSettings(s, serviceType);
    if rec.None? || !rec.value.isPaused || rec.value.pausedAt.None? then Step(s, NotPaused)
    else
      var v := rec.value;
      var elapsedMinutes := (now - v.pausedAt.value) / MillisPerMinute;
      var remaining := if v.pauseDurationMinutes - elapsedMinutes > 0 then v.pauseDurationMinutes - elapsedMinutes else 0;
      FloorMinutesBelow(now - v.pausedAt.value, v.pauseDurationMinutes);
      if remaining <= 0 then
        var ins := InsertPauseSettings(serviceType, false, v.pauseDurationMinutes, v.pauseReason, None);
        var cleared := UpsertPauseSettings(s, ins, now);
        UpsertOthersAll(s, ins, now);
        Step(cleared.store, NotPaused)
      else
        StartedMinutes(now - v.pausedAt.value, v.pauseDurationMinutes);
        Step(s, Paused(v.pausedAt.value, v.pauseDurationMinutes, v.pauseReason, remaining))
  }

  /** Once the check reports a channel not paused, it reports it not paused
      at every later reading, and those readings change nothing, until the
      record is written again. */
  lemma NotPausedIsFinal(s: Store, serviceType: string, now: Millis, later: Millis)
    requires Valid(s)
    requires CheckPaused(s, serviceType, now).value.NotPaused?
    ensures var s' := CheckPaused(s, serviceType, now).store;
      CheckPaused(s', serviceType, later) == Step(s', NotPaused)
  {
  }

  /** A pause that has run out is cleared by the first check that sees it. */
  lemma ExpiredPauseIsCleared(s: Store, serviceType: string, now: Millis)
    requires Valid(s)
    requires GetPauseSettings(s, serviceType).Some?
    requires var v := GetPauseSettings(s, serviceType).value;
      Armed(v) && Deadline(v.pausedAt.value, v.pauseDurationMinutes) <= now
    ensures var r := CheckPaused(s, serviceType, now);
      && r.value == NotPaused
      && GetPauseSettings(r.store, serviceType).value.isPaused == false
      && GetPauseSettings(r.store, serviceType).value.pausedAt == GetPauseSettings(s, serviceType).value.pausedAt
  {
  }
}
